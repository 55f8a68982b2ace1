// What the cipher's stream is: each register obeys the recurrence its mask spells,
// the bits are those of the alternating stop-and-go generator, and they are zero
// throughout only if the registers are.
module PotpStream {
  import opened Potp

  // ----- One register by itself

  // A register after it has moved `n` times.
  function Moved(i: bv32, mask: bv32, n: nat): bv32 {
    if n == 0 then i else Lfsr(Moved(i, mask, n - 1), mask)
  }

  // The bit it shows then, which its next move shifts out.
  predicate Shows(i: bv32, mask: bv32, n: nat) { IsOdd(Moved(i, mask, n)) }

  lemma {:induction false} MovedOn(i: bv32, mask: bv32, n: nat)
    ensures Moved(Lfsr(i, mask), mask, n) == Moved(i, mask, n + 1)
  {
    if n > 0 {
      MovedOn(i, mask, n - 1);
    }
  }

  // The sum modulo 2 of the bits shown `taps` moves after move `n`.
  predicate Feedback(i: bv32, mask: bv32, n: nat, taps: seq<nat>) {
    taps != [] && Shows(i, mask, n + taps[0]) != Feedback(i, mask, n, taps[1..])
  }

  // Eight moves in turn.
  datatype Window = Window(
    x0: bv32, x1: bv32, x2: bv32, x3: bv32, x4: bv32, x5: bv32, x6: bv32, x7: bv32, x8: bv32)

  predicate InTurn(w: Window, mask: bv32) {
    && w.x1 == Lfsr(w.x0, mask) && w.x2 == Lfsr(w.x1, mask) && w.x3 == Lfsr(w.x2, mask) && w.x4 == Lfsr(w.x3, mask)
    && w.x5 == Lfsr(w.x4, mask) && w.x6 == Lfsr(w.x5, mask) && w.x7 == Lfsr(w.x6, mask) && w.x8 == Lfsr(w.x7, mask)
  }

  lemma EightMoves(i: bv32, mask: bv32, n: nat) returns (w: Window)
    ensures InTurn(w, mask) && w.x0 == Moved(i, mask, n) && w.x8 == Moved(i, mask, n + 8)
    ensures w.x1 == Moved(i, mask, n + 1) && w.x2 == Moved(i, mask, n + 2) && w.x3 == Moved(i, mask, n + 3)
    ensures w.x4 == Moved(i, mask, n + 4) && w.x5 == Moved(i, mask, n + 5) && w.x6 == Moved(i, mask, n + 6)
    ensures w.x7 == Moved(i, mask, n + 7)
  {
    w := Window(
      Moved(i, mask, n), Moved(i, mask, n + 1), Moved(i, mask, n + 2), Moved(i, mask, n + 3), Moved(i, mask, n + 4),
      Moved(i, mask, n + 5), Moved(i, mask, n + 6), Moved(i, mask, n + 7), Moved(i, mask, n + 8));
  }

  // The bit that move `n + 32` shows starts at the top with move `n`, comes down one
  // place a move, and is changed by each one shifted out where the mask has a bit:
  // near the top, not in the middle, and near the bottom.
  lemma Top1(w: Window)
    requires InTurn(w, MASK1)
    ensures w.x8 & 0x1000000 != 0 <==> IsOdd(w.x0) != IsOdd(w.x1)
  {
  }

  lemma Down1(w: Window)
    requires InTurn(w, MASK1)
    ensures w.x8 & 0x10000 == 0 <==> w.x0 & 0x1000000 == 0
    ensures w.x8 & 0x100 == 0 <==> w.x0 & 0x10000 == 0
  {
  }

  lemma Bottom1(w: Window)
    requires InTurn(w, MASK1)
    ensures IsOdd(w.x8) <==> ((((w.x0 & 0x100 != 0) != IsOdd(w.x2)) != IsOdd(w.x4)) != IsOdd(w.x6)) != IsOdd(w.x7)
  {
  }

  lemma FirstQuarter1(i: bv32, n: nat)
    ensures Moved(i, MASK1, n + 8) & 0x1000000 != 0 <==> Shows(i, MASK1, n) != Shows(i, MASK1, n + 1)
  {
    var w := EightMoves(i, MASK1, n);
    Top1(w);
  }

  lemma MiddleQuarter1(i: bv32, n: nat)
    ensures Moved(i, MASK1, n + 8) & 0x10000 == 0 <==> Moved(i, MASK1, n) & 0x1000000 == 0
    ensures Moved(i, MASK1, n + 8) & 0x100 == 0 <==> Moved(i, MASK1, n) & 0x10000 == 0
  {
    var w := EightMoves(i, MASK1, n);
    Down1(w);
  }

  lemma LastQuarter1(i: bv32, n: nat)
    ensures Shows(i, MASK1, n + 8) <==>
      ((((Moved(i, MASK1, n) & 0x100 != 0) != Shows(i, MASK1, n + 2)) != Shows(i, MASK1, n + 4)) !=
        Shows(i, MASK1, n + 6)) != Shows(i, MASK1, n + 7)
  {
    var w := EightMoves(i, MASK1, n);
    Bottom1(w);
  }

  lemma Top2(w: Window)
    requires InTurn(w, MASK2)
    ensures w.x8 & 0x1000000 != 0 <==> IsOdd(w.x0) != IsOdd(w.x1)
  {
  }

  lemma Down2(w: Window)
    requires InTurn(w, MASK2)
    ensures w.x8 & 0x10000 == 0 <==> w.x0 & 0x1000000 == 0
    ensures w.x8 & 0x100 == 0 <==> w.x0 & 0x10000 == 0
  {
  }

  lemma Bottom2(w: Window)
    requires InTurn(w, MASK2)
    ensures IsOdd(w.x8) <==> (((w.x0 & 0x100 != 0) != IsOdd(w.x2)) != IsOdd(w.x3)) != IsOdd(w.x7)
  {
  }

  lemma FirstQuarter2(i: bv32, n: nat)
    ensures Moved(i, MASK2, n + 8) & 0x1000000 != 0 <==> Shows(i, MASK2, n) != Shows(i, MASK2, n + 1)
  {
    var w := EightMoves(i, MASK2, n);
    Top2(w);
  }

  lemma MiddleQuarter2(i: bv32, n: nat)
    ensures Moved(i, MASK2, n + 8) & 0x10000 == 0 <==> Moved(i, MASK2, n) & 0x1000000 == 0
    ensures Moved(i, MASK2, n + 8) & 0x100 == 0 <==> Moved(i, MASK2, n) & 0x10000 == 0
  {
    var w := EightMoves(i, MASK2, n);
    Down2(w);
  }

  lemma LastQuarter2(i: bv32, n: nat)
    ensures Shows(i, MASK2, n + 8) <==>
      (((Moved(i, MASK2, n) & 0x100 != 0) != Shows(i, MASK2, n + 2)) !=
        Shows(i, MASK2, n + 3)) != Shows(i, MASK2, n + 7)
  {
    var w := EightMoves(i, MASK2, n);
    Bottom2(w);
  }

  lemma Top3(w: Window)
    requires InTurn(w, MASK3)
    ensures w.x8 & 0x1000000 != 0 <==> IsOdd(w.x0) != IsOdd(w.x3)
  {
  }

  lemma Down3(w: Window)
    requires InTurn(w, MASK3)
    ensures w.x8 & 0x10000 == 0 <==> w.x0 & 0x1000000 == 0
    ensures w.x8 & 0x100 == 0 <==> w.x0 & 0x10000 == 0
  {
  }

  lemma Bottom3(w: Window)
    requires InTurn(w, MASK3)
    ensures IsOdd(w.x8) <==> ((w.x0 & 0x100 != 0) != IsOdd(w.x3)) != IsOdd(w.x5)
  {
  }

  lemma FirstQuarter3(i: bv32, n: nat)
    ensures Moved(i, MASK3, n + 8) & 0x1000000 != 0 <==> Shows(i, MASK3, n) != Shows(i, MASK3, n + 3)
  {
    var w := EightMoves(i, MASK3, n);
    Top3(w);
  }

  lemma MiddleQuarter3(i: bv32, n: nat)
    ensures Moved(i, MASK3, n + 8) & 0x10000 == 0 <==> Moved(i, MASK3, n) & 0x1000000 == 0
    ensures Moved(i, MASK3, n + 8) & 0x100 == 0 <==> Moved(i, MASK3, n) & 0x10000 == 0
  {
    var w := EightMoves(i, MASK3, n);
    Down3(w);
  }

  lemma LastQuarter3(i: bv32, n: nat)
    ensures Shows(i, MASK3, n + 8) <==>
      ((Moved(i, MASK3, n) & 0x100 != 0) != Shows(i, MASK3, n + 3)) != Shows(i, MASK3, n + 5)
  {
    var w := EightMoves(i, MASK3, n);
    Bottom3(w);
  }

  // The feedback polynomials, as distances between bits shown.
  const TAPS1: seq<nat> := [0, 1, 26, 28, 30, 31]
  const TAPS2: seq<nat> := [0, 1, 26, 27, 31]
  const TAPS3: seq<nat> := [0, 3, 27, 29]

  lemma SixTaps(i: bv32, mask: bv32, n: nat, a: nat, b: nat, c: nat, d: nat, e: nat, f: nat)
    ensures Feedback(i, mask, n, [a, b, c, d, e, f]) <==>
      Shows(i, mask, n + a) != Feedback(i, mask, n, [b, c, d, e, f])
    ensures Feedback(i, mask, n, [b, c, d, e, f]) <==>
      Shows(i, mask, n + b) != (Shows(i, mask, n + c) != (Shows(i, mask, n + d) !=
        (Shows(i, mask, n + e) != Shows(i, mask, n + f))))
    ensures Feedback(i, mask, n, [c, d, e, f]) <==>
      Shows(i, mask, n + c) != (Shows(i, mask, n + d) != (Shows(i, mask, n + e) != Shows(i, mask, n + f)))
  {
    assert [a, b, c, d, e, f][1..] == [b, c, d, e, f] && [b, c, d, e, f][1..] == [c, d, e, f];
    assert [c, d, e, f][1..] == [d, e, f] && [d, e, f][1..] == [e, f] && [e, f][1..] == [f];
    assert [f][1..] == [];
    assert Feedback(i, mask, n, [f]) == Shows(i, mask, n + f);
    assert Feedback(i, mask, n, [e, f]) == (Shows(i, mask, n + e) != Shows(i, mask, n + f));
    assert Feedback(i, mask, n, [d, e, f]) == (Shows(i, mask, n + d) != Feedback(i, mask, n, [e, f]));
    assert Feedback(i, mask, n, [c, d, e, f]) == (Shows(i, mask, n + c) != Feedback(i, mask, n, [d, e, f]));
  }

  // Every bit a register shows is the sum of those its mask selects among the 32
  // before it.
  lemma Recurrence(i: bv32, n: nat)
    ensures Shows(i, MASK1, n + 32) <==> Feedback(i, MASK1, n, TAPS1)
    ensures Shows(i, MASK2, n + 32) <==> Feedback(i, MASK2, n, TAPS2)
    ensures Shows(i, MASK3, n + 32) <==> Feedback(i, MASK3, n, TAPS3)
  {
    Recurrence1(i, n);
    Recurrence2(i, n);
    Recurrence3(i, n);
  }

  lemma Recurrence1(i: bv32, n: nat)
    ensures Shows(i, MASK1, n + 32) <==> Feedback(i, MASK1, n, TAPS1)
  {
    FirstQuarter1(i, n);
    MiddleQuarter1(i, n + 8);
    MiddleQuarter1(i, n + 16);
    LastQuarter1(i, n + 24);
    SixTaps(i, MASK1, n, 0, 1, 26, 28, 30, 31);
  }

  lemma Recurrence2(i: bv32, n: nat)
    ensures Shows(i, MASK2, n + 32) <==> Feedback(i, MASK2, n, TAPS2)
  {
    FirstQuarter2(i, n);
    MiddleQuarter2(i, n + 8);
    MiddleQuarter2(i, n + 16);
    LastQuarter2(i, n + 24);
    SixTaps(i, MASK2, n, 0, 0, 1, 26, 27, 31);
  }

  lemma Recurrence3(i: bv32, n: nat)
    ensures Shows(i, MASK3, n + 32) <==> Feedback(i, MASK3, n, TAPS3)
  {
    FirstQuarter3(i, n);
    MiddleQuarter3(i, n + 8);
    MiddleQuarter3(i, n + 16);
    LastQuarter3(i, n + 24);
    SixTaps(i, MASK3, n, 0, 0, 0, 3, 27, 29);
  }

  // ----- The generator

  // How many of register 1's first `n` bits are one: register 2 has moved so often,
  // and register 3 the other times.
  function Turns(i1: bv32, n: nat): (t: nat)
    ensures t <= n
  {
    if n == 0 then 0 else Turns(i1, n - 1) + if Shows(i1, MASK1, n - 1) then 1 else 0
  }

  lemma {:induction false} Positions(k: Key, n: nat)
    ensures Steps(k, n).i1 == Moved(k.i1, MASK1, n)
    ensures Steps(k, n).i2 == Moved(k.i2, MASK2, Turns(k.i1, n))
    ensures Steps(k, n).i3 == Moved(k.i3, MASK3, n - Turns(k.i1, n))
  {
    if n > 0 {
      Positions(k, n - 1);
    }
  }

  lemma ShownSum(k: Key)
    ensures OutBit(k) == if IsOdd(k.i2) != IsOdd(k.i3) then 1 else 0
  {
  }

  // The `n`th bit of the stream is the sum modulo 2 of a bit of register 2 and a bit
  // of register 3, each run by itself; register 1's bits say how far each has come.
  lemma StopAndGo(k: Key, n: nat)
    ensures var t := Turns(k.i1, n);
      OutBit(Steps(k, n)) == if Shows(k.i2, MASK2, t) != Shows(k.i3, MASK3, n - t) then 1 else 0
  {
    Positions(k, n);
    ShownSum(Steps(k, n));
  }

  // Flipping the low bit of the register that stands still flips the next bit.
  lemma StandingBitCounts(k: Key)
    ensures OutBit(Step(if IsOdd(k.i1) then k.(i3 := k.i3 ^ 1) else k.(i2 := k.i2 ^ 1))) != OutBit(Step(k))
  {
  }

  // ----- Silence

  // The low `n` bits.
  function LowBits(n: nat): bv32 {
    if n == 0 then 0 else (LowBits(n - 1) << 1) | 1
  }

  lemma AllBits()
    ensures LowBits(32) == 0xFFFFFFFF
  {
    assert LowBits(4) == 0xF && LowBits(8) == 0xFF && LowBits(12) == 0xFFF && LowBits(16) == 0xFFFF;
    assert LowBits(20) == 0xFFFFF && LowBits(24) == 0xFFFFFF && LowBits(28) == 0xFFFFFFF;
  }

  lemma EvenShifts(i: bv32, mask: bv32, low: bv32)
    requires !IsOdd(i) && Lfsr(i, mask) & low == 0
    ensures i & ((low << 1) | 1) == 0
  {
  }

  // A register that shows only zeros for `n` moves has none of its low `n` bits set.
  lemma {:induction false} ZerosShown(i: bv32, mask: bv32, n: nat)
    requires forall j {:trigger Shows(i, mask, j)} :: 0 <= j < n ==> !Shows(i, mask, j)
    ensures i & LowBits(n) == 0
    decreases n
  {
    if n > 0 {
      assert !Shows(i, mask, 0);
      forall j: nat {:trigger Shows(Lfsr(i, mask), mask, j)} | j < n - 1
        ensures !Shows(Lfsr(i, mask), mask, j)
      {
        MovedOn(i, mask, j);
        assert !Shows(i, mask, j + 1);
      }
      ZerosShown(Lfsr(i, mask), mask, n - 1);
      EvenShifts(i, mask, LowBits(n - 1));
    }
  }

  // A register that shows 32 zeros after its first move is zero.
  lemma SilentIsZero(i: bv32, mask: bv32)
    requires forall j {:trigger Shows(i, mask, j)} :: 1 <= j <= 32 ==> !Shows(i, mask, j)
    ensures i == 0
  {
    forall j: nat {:trigger Shows(Lfsr(i, mask), mask, j)} | j < 32
      ensures !Shows(Lfsr(i, mask), mask, j)
    {
      MovedOn(i, mask, j);
      assert !Shows(i, mask, j + 1);
    }
    ZerosShown(Lfsr(i, mask), mask, 32);
    AllBits();
    ZeroIsFixed(i, mask);
  }

  lemma {:induction false} ZeroStays(mask: bv32, n: nat)
    ensures Moved(0, mask, n) == 0 && !Shows(0, mask, n)
  {
    if n > 0 {
      ZeroStays(mask, n - 1);
    }
  }

  // The step by which register 3, and that by which register 2, has moved `m` times.
  lemma {:induction false} WhenThirdMoved(i1: bv32, n: nat, m: nat) returns (j: nat)
    requires 1 <= m <= n - Turns(i1, n)
    ensures 1 <= j <= n && j - Turns(i1, j) == m
    decreases n
  {
    j := n;
    if n - Turns(i1, n) > m {
      j := WhenThirdMoved(i1, n - 1, m);
    }
  }

  lemma {:induction false} WhenSecondMoved(i1: bv32, n: nat, m: nat) returns (j: nat)
    requires 1 <= m <= Turns(i1, n)
    ensures 1 <= j <= n && Turns(i1, j) == m
    decreases n
  {
    j := n;
    if Turns(i1, n) > m {
      j := WhenSecondMoved(i1, n - 1, m);
    }
  }

  predicate Silent(k: Key, n: nat) {
    forall j {:trigger Steps(k, j)} :: 1 <= j <= n ==> OutBit(Steps(k, j)) == 0
  }

  // The stream shows register 3: with register 2 zero, steps that move register 3 at
  // least 32 times give nothing but zeros only if it is zero too.
  lemma ThirdIsHeard(k: Key, n: nat)
    requires k.i2 == 0 && n - Turns(k.i1, n) >= 32
    ensures Silent(k, n) <==> k.i3 == 0
  {
    if Silent(k, n) {
      forall m: nat {:trigger Shows(k.i3, MASK3, m)} | 1 <= m <= 32
        ensures !Shows(k.i3, MASK3, m)
      {
        var j := WhenThirdMoved(k.i1, n, m);
        StopAndGo(k, j);
        ZeroStays(MASK2, Turns(k.i1, j));
        assert OutBit(Steps(k, j)) == 0;
      }
      SilentIsZero(k.i3, MASK3);
    }
    if k.i3 == 0 {
      ZerosAreSilent(k, n);
    }
  }

  // And register 2 likewise.
  lemma SecondIsHeard(k: Key, n: nat)
    requires k.i3 == 0 && Turns(k.i1, n) >= 32
    ensures Silent(k, n) <==> k.i2 == 0
  {
    if Silent(k, n) {
      forall m: nat {:trigger Shows(k.i2, MASK2, m)} | 1 <= m <= 32
        ensures !Shows(k.i2, MASK2, m)
      {
        var j := WhenSecondMoved(k.i1, n, m);
        StopAndGo(k, j);
        ZeroStays(MASK3, j - Turns(k.i1, j));
        assert OutBit(Steps(k, j)) == 0;
      }
      SilentIsZero(k.i2, MASK2);
    }
    if k.i2 == 0 {
      ZerosAreSilent(k, n);
    }
  }

  lemma ZerosAreSilent(k: Key, n: nat)
    requires k.i2 == 0 && k.i3 == 0
    ensures Silent(k, n)
  {
    forall j: nat {:trigger Steps(k, j)} | 1 <= j <= n
      ensures OutBit(Steps(k, j)) == 0
    {
      StopAndGo(k, j);
      ZeroStays(MASK2, Turns(k.i1, j));
      ZeroStays(MASK3, j - Turns(k.i1, j));
    }
  }

  // ----- Bytes, words and keys of the stream

  // A byte of up to eight bits, low bit first.
  function Gather(bits: seq<bv8>): bv8
    requires |bits| <= 8
  {
    var n := |bits|;
    if n == 0 then 0 else Gather(bits[..n - 1]) | (bits[n - 1] << (n - 1))
  }

  lemma OneBitMore(b: bv8, bit: bv8, n: nat)
    requires n < 8 && bit <= 1 && b >> n == 0
    ensures ((b | (bit << n)) >> n) & 1 == bit
    ensures n < 7 ==> (b | (bit << n)) >> (n + 1) == 0
  {
  }

  lemma BitsStay(b: bv8, bit: bv8, n: nat, i: nat, g: bv8)
    requires i <= n < 8 && bit <= 1 && b >> n == 0 && g == b | (bit << n)
    ensures (g >> i) & 1 == if i == n then bit else (b >> i) & 1
  {
  }

  lemma {:induction false} HighBitsClear(bits: seq<bv8>)
    requires |bits| < 8 && forall i :: 0 <= i < |bits| ==> bits[i] <= 1
    ensures Gather(bits) >> |bits| == 0
    decreases |bits|
  {
    if bits != [] {
      var n := |bits| - 1;
      HighBitsClear(bits[..n]);
      OneBitMore(Gather(bits[..n]), bits[n], n);
    }
  }

  lemma {:induction false} GatheredBit(bits: seq<bv8>, i: nat)
    requires i < |bits| <= 8 && forall j :: 0 <= j < |bits| ==> bits[j] <= 1
    ensures (Gather(bits) >> i) & 1 == bits[i]
    decreases |bits|
  {
    var n := |bits| - 1;
    HighBitsClear(bits[..n]);
    BitsStay(Gather(bits[..n]), bits[n], n, i, Gather(bits));
    if i < n {
      GatheredBit(bits[..n], i);
    }
  }

  function NextBits(k: Key, n: nat): (bits: seq<bv8>)
    ensures |bits| == n && forall i :: 0 <= i < n ==> bits[i] == OutBit(Steps(k, i + 1)) <= 1
  {
    seq(n, i requires 0 <= i < n => OutBit(Steps(k, i + 1)))
  }

  lemma {:induction false} BitsAreGathered(k: Key, n: nat)
    requires n <= 8
    ensures Bits(k, n) == Gather(NextBits(k, n))
  {
    if n > 0 {
      BitsAreGathered(k, n - 1);
      assert NextBits(k, n)[..n - 1] == NextBits(k, n - 1);
    }
  }

  lemma BitOfByte(k: Key, i: nat)
    requires i < 8
    ensures (RandByte(k) >> i) & 1 == OutBit(Steps(k, i + 1))
  {
    BitsAreGathered(k, 8);
    GatheredBit(NextBits(k, 8), i);
  }

  // A message is enciphered bit by bit: bit `i` of byte `j`, the low one first, is
  // flipped exactly when the generator's bit `8j + i + 1` is one.
  lemma CipherIsStopAndGo(k: Key, m: seq<bv8>, j: nat, i: nat)
    requires j < |m| && i < 8
    ensures ((Cipher(k, m)[j] ^ m[j]) >> i) & 1 == OutBit(Steps(k, 8 * j + i + 1))
  {
    XorTwice(StreamByte(k, j), m[j]);
    BitOfByte(Steps(k, 8 * j), i);
    StepsAdd(k, 8 * j, i + 1);
  }

  lemma XorTwice(a: bv8, b: bv8)
    ensures (a ^ b) ^ b == a
  {
  }

  // A word of up to four bytes, low byte first.
  function Join(bytes: seq<bv8>): bv32
    requires |bytes| <= 4
  {
    var n := |bytes|;
    if n == 0 then 0 else Join(bytes[..n - 1]) | Place(bytes[n - 1], n - 1)
  }

  // Four bytes placed side by side: the last one is highest.
  lemma PlaceFour(a: bv8, b: bv8, c: bv8, d: bv8)
    ensures (((0 | Place(d, 0)) | Place(c, 1)) | Place(b, 2)) | Place(a, 3) == WordOf(a, b, c, d)
  {
  }

  lemma {:induction false} BytesAreJoined(k: Key, n: nat)
    requires n <= 4
    ensures Bytes(k, n) == Join(Keystream(k, n))
  {
    if n > 0 {
      BytesAreJoined(k, n - 1);
      assert Keystream(k, n)[..n - 1] == Keystream(k, n - 1);
    }
  }

  // The word of four bytes of the stream, from byte `j` on.
  function StreamWord(k: Key, j: nat): bv32 { Join(Keystream(k, j + 4)[j..]) }

  lemma LongIsStream(k: Key, j: nat, x: Key)
    requires x == Steps(k, 8 * j)
    ensures RandLong(x) == StreamWord(k, j)
  {
    BytesAreJoined(x, 4);
    KeystreamAppends(k, j, 4);
    assert Keystream(k, j + 4)[j..] == Keystream(x, 4);
  }

  lemma SwapKeyUndoes(k: Key)
    ensures SwapKey(SwapKey(k)) == k
  {
    SwapsUndo(k.i1, 0);
    SwapsUndo(k.i2, 0);
    SwapsUndo(k.i3, 0);
  }

  // A packet carries the spin count and the half key under its mask.
  lemma OfferIs(password: seq<bv8>, spin: bv16, half: Key)
    ensures SwapWord(Offer(password, spin, half).spinCount) == spin
    ensures SwapKey(Offer(password, spin, half).key) == XorKeys(half, Mask(password, spin as nat))
  {
    SwapsUndo(0, spin);
    SwapKeyUndoes(XorKeys(half, Mask(password, spin as nat)));
  }

  lemma DrawIsStream(k: Key, j: nat)
    ensures DrawKey(Steps(k, 8 * j)) == Key(StreamWord(k, j), StreamWord(k, j + 4), StreamWord(k, j + 8))
  {
    var x := Steps(k, 8 * j);
    StepsAdd(k, 8 * j, 32);
    StepsAdd(k, 8 * j, 64);
    LongIsStream(k, j, x);
    LongIsStream(k, j + 4, Steps(x, 32));
    LongIsStream(k, j + 8, Steps(x, 64));
  }

  // A spin count is the low word drawn, without its last three bits.
  lemma SpinCountIs(random: bv32)
    ensures (SpinCount(random) << 3) | (((random & 0xFFFF) as bv16) & 7) == (random & 0xFFFF) as bv16
    ensures SpinCount(random) <= 0x1FFF
  {
  }

  // A half key is the twelve bytes that follow the first four of the generator's
  // stream, and those four give the spin count.
  lemma HalfKeyIsStream(password: seq<bv8>, rand: Key)
    ensures var (half, sync) := ClientInit(password, rand);
      && half == Key(StreamWord(rand, 4), StreamWord(rand, 8), StreamWord(rand, 12))
      && sync == Offer(password, SpinCount(StreamWord(rand, 0)), half)
  {
    DrawIsStream(rand, 4);
    LongIsStream(rand, 0, rand);
  }

  // What hides it are the twelve bytes of the password's stream that follow the
  // spin count.
  lemma MaskIsStream(password: seq<bv8>, spin: nat)
    ensures var p := InitFromPass(password);
      Mask(password, spin) == Key(StreamWord(p, spin), StreamWord(p, spin + 4), StreamWord(p, spin + 8))
  {
    DrawIsStream(InitFromPass(password), spin);
  }

  // ----- Byte order

  // The bytes of a word, and its bytes swapped; the same for a 16-bit word.
  lemma BytesOfWord(a: bv8, b: bv8, c: bv8, d: bv8)
    ensures var w := WordOf(a, b, c, d);
      && ((w >> 24) & 0xFF) as bv8 == a && ((w >> 16) & 0xFF) as bv8 == b
      && ((w >> 8) & 0xFF) as bv8 == c && (w & 0xFF) as bv8 == d
    ensures SwapLong(WordOf(a, b, c, d)) == WordOf(d, c, b, a)
  {
  }

  lemma SwappedWord(x: bv16)
    ensures SwapWord(x) & 0xFF == x >> 8 && SwapWord(x) >> 8 == x & 0xFF
  {
  }
}
