// The one's complement checksum of IP headers, ICMP messages and management
// messages. The code adds little-endian words, so its result is byte swapped, and
// it puts an odd last byte in the high half of a word.
module Checksum {
  import opened LinearProbing
  import opened Remainders

  type Byte = x: nat | x < 256
  type Word = x: nat | x < 0x1_0000

  const DWORD: nat := 0x1_0000_0000

  // The sum of the little-endian words of `b`.
  function WordSum(b: seq<Byte>): nat {
    if |b| == 0 then 0
    else if |b| == 1 then b[0] * 256
    else b[0] + b[1] * 256 + WordSum(b[2..])
  }

  // The word of two bytes, low byte first.
  function WordOf(lo: nat, hi: nat): nat { lo + hi * 256 }

  function Fold(x: nat): nat { x % 0x1_0000 + x / 0x1_0000 }

  // The running sum a previous checksum stands for.
  function Start(prev: Option<Word>): nat {
    if prev.Some? then 0xFFFF - prev.value else 0
  }

  function ChkSum(b: seq<Byte>, prev: Option<Word>): Word {
    Complement(Fold(Fold(Start(prev) + WordSum(b))))
  }

  // The low word of the bitwise complement.
  function Complement(x: nat): Word { 0xFFFF - x % 0x1_0000 }

  lemma ComplementOfWord(x: nat)
    requires x <= 0xFFFF
    ensures Complement(x) == 0xFFFF - x
  {
  }

  // ----- Arithmetic modulo 65535

  // The number from 1 to 65535 that is congruent to `x`; 0 only for 0 itself.
  function Residue(x: nat): (r: nat)
    ensures r <= 0xFFFF && (r == 0 <==> x == 0)
    ensures x <= 0xFFFF ==> r == x
  {
    if x == 0 then 0 else (x - 1) % 0xFFFF + 1
  }

  lemma Multiples(x: nat, k: int)
    requires x + 0xFFFF * k >= 0
    ensures (x + 0xFFFF * k) % 0xFFFF == x % 0xFFFF
  {
  }

  // Adding a multiple of 65535 to a positive number keeps its residue.
  lemma ResidueShift(x: nat, k: nat)
    requires x > 0
    ensures Residue(x + 0xFFFF * k) == Residue(x)
  {
    Multiples(x - 1, k);
  }

  lemma ResidueQuotient(x: nat) returns (k: nat)
    ensures x == Residue(x) + 0xFFFF * k
  {
    k := if x == 0 then 0 else (x - 1) / 0xFFFF;
  }

  lemma ResidueAdd(a: nat, b: nat)
    ensures Residue(Residue(a) + b) == Residue(a + b)
  {
    var k := ResidueQuotient(a);
    if a > 0 {
      ResidueShift(Residue(a) + b, k);
    }
  }

  // A fold keeps the residue.
  lemma OneFold(x: nat)
    requires x < DWORD
    ensures Fold(x) <= 0x1_FFFE && Residue(Fold(x)) == Residue(x)
  {
    var h, l := x / 0x1_0000, x % 0x1_0000;
    assert x == h + l + 0xFFFF * h;
    if x > 0 {
      ResidueShift(h + l, h);
    }
  }

  lemma LastFold(x: nat)
    requires x <= 0x1_FFFE
    ensures Fold(x) == Residue(x)
  {
    if x > 0xFFFF {
      Rem64K(x, 1, x - 0x1_0000);
      ResidueShift(x - 0xFFFF, 1);
    } else {
      Rem64K(x, 0, x);
    }
  }

  // Any 32-bit sum fits in 16 bits after two folds, which give its residue.
  lemma TwoFolds(x: nat)
    requires x < DWORD
    ensures Fold(Fold(x)) == Residue(x)
  {
    OneFold(x);
    LastFold(Fold(x));
  }

  // ----- Sums

  // The sum of any buffer whose length fits in 16 bits cannot overflow 32 bits.
  lemma {:induction false} SumBound(b: seq<Byte>)
    ensures WordSum(b) <= 0xFFFF * ((|b| + 1) / 2)
  {
    if |b| >= 2 {
      SumBound(b[2..]);
    }
  }

  lemma NoOverflow(b: seq<Byte>, prev: Option<Word>)
    requires |b| < 0x1_0000
    ensures Start(prev) + WordSum(b) < DWORD
  {
    SumBound(b);
  }

  lemma {:induction false} SumAppend(a: seq<Byte>, b: seq<Byte>)
    requires |a| % 2 == 0
    ensures WordSum(a + b) == WordSum(a) + WordSum(b)
  {
    if |a| == 0 {
      assert a + b == b;
    } else {
      assert (a + b)[2..] == a[2..] + b;
      SumAppend(a[2..], b);
    }
  }

  lemma FoldedComplement(x: nat)
    requires x < DWORD
    ensures Complement(Fold(Fold(x))) == 0xFFFF - Residue(x)
  {
    TwoFolds(x);
    ComplementOfWord(Residue(x));
  }

  lemma ChkSumIsResidue(b: seq<Byte>, prev: Option<Word>)
    requires |b| < 0x1_0000
    ensures ChkSum(b, prev) == 0xFFFF - Residue(Start(prev) + WordSum(b))
  {
    NoOverflow(b, prev);
    FoldedComplement(Start(prev) + WordSum(b));
  }

  // ----- What the checksum is for

  // Chaining over a prefix of even length is one pass over the whole.
  lemma ChainIsConcatenation(a: seq<Byte>, b: seq<Byte>, prev: Option<Word>)
    requires |a| % 2 == 0 && |a| + |b| < 0x1_0000
    ensures ChkSum(b, Some(ChkSum(a, prev))) == ChkSum(a + b, prev)
  {
    SumAppend(a, b);
    ChkSumIsResidue(a, prev);
    ChkSumIsResidue(b, Some(ChkSum(a, prev)));
    ChkSumIsResidue(a + b, prev);
    ResidueAdd(Start(prev) + WordSum(a), WordSum(b));
  }

  function Low(w: Word): Byte { w % 256 }

  function High(w: Word): Byte { w / 256 }

  lemma SumWithField(before: seq<Byte>, lo: Byte, hi: Byte, after: seq<Byte>)
    requires |before| % 2 == 0
    ensures WordSum(before + [lo, hi] + after) == WordSum(before) + WordOf(lo, hi) + WordSum(after)
  {
    var field: seq<Byte> := [lo, hi];
    SumAppend(before, field);
    SumAppend(before + field, after);
    assert field[2..] == [];
  }

  // A sum and its complemented residue add up to all ones.
  lemma ComplementCloses(x: nat, w: nat, y: nat)
    requires w == 0xFFFF - Residue(x) && y == x + w
    ensures Residue(y) == 0xFFFF
  {
    var k := ResidueQuotient(x);
    ResidueShift(0xFFFF, k);
  }

  lemma FirstPass(b: seq<Byte>, sum: nat, r: nat)
    requires |b| < 0x1_0000 && sum == WordSum(b) && r == Residue(sum)
    ensures ChkSum(b, None) == 0xFFFF - r
  {
    ChkSumIsResidue(b, None);
  }

  lemma WordOfHalves(w: Word)
    ensures WordOf(Low(w), High(w)) == w
  {
  }

  // Whatever word is the complemented residue of the rest makes the whole verify.
  lemma ComplementVerifies(b: seq<Byte>, rest: nat, w: nat)
    requires |b| < 0x1_0000 && WordSum(b) == rest + w && w == 0xFFFF - Residue(rest)
    ensures ChkSum(b, None) == 0
  {
    ComplementCloses(rest, w, rest + w);
    FirstPass(b, rest + w, 0xFFFF);
  }

  lemma SumWithWord(before: seq<Byte>, w: Word, after: seq<Byte>)
    requires |before| % 2 == 0
    ensures WordSum(before + [Low(w), High(w)] + after) == WordSum(before) + WordSum(after) + w
  {
    SumWithField(before, Low(w), High(w), after);
    WordOfHalves(w);
  }

  lemma ZeroedSum(before: seq<Byte>, after: seq<Byte>) returns (c: Word)
    requires |before| % 2 == 0 && |before| + 2 + |after| < 0x1_0000
    ensures c == ChkSum(before + [0, 0] + after, None) == 0xFFFF - Residue(WordSum(before) + WordSum(after))
  {
    SumWithField(before, 0, 0, after);
    var sum := WordSum(before) + WordSum(after);
    FirstPass(before + [0, 0] + after, sum, Residue(sum));
    c := ChkSum(before + [0, 0] + after, None);
  }

  // Storing the checksum of a buffer in its zeroed checksum field, a word at an
  // even offset, makes the whole verify.
  lemma InsertedVerifies(before: seq<Byte>, after: seq<Byte>)
    requires |before| % 2 == 0 && |before| + 2 + |after| < 0x1_0000
    ensures var c := ChkSum(before + [0, 0] + after, None);
      ChkSum(before + [Low(c), High(c)] + after, None) == 0
  {
    var c := ZeroedSum(before, after);
    SumWithWord(before, c, after);
    ComplementVerifies(before + [Low(c), High(c)] + after, WordSum(before) + WordSum(after), c);
  }

  lemma EmptyFirst(x: seq<Byte>, y: seq<Byte>)
    ensures [] + x + y == x + y
  {
  }

  lemma InsertedAtFront(after: seq<Byte>)
    requires 2 + |after| < 0x1_0000
    ensures var c := ChkSum([0, 0] + after, None);
      ChkSum([Low(c), High(c)] + after, None) == 0
  {
    var c := ChkSum([0, 0] + after, None);
    EmptyFirst([0, 0], after);
    EmptyFirst([Low(c), High(c)], after);
    InsertedVerifies([], after);
  }

  // A checksum chained over a zeroed field with two more bytes, and then over the
  // rest, verifies once it is stored in the field.
  lemma ChainedVerifies(two: seq<Byte>, rest: seq<Byte>)
    requires |two| == 2 && 4 + |rest| < 0x1_0000
    ensures var c := ChkSum(rest, Some(ChkSum([0, 0] + two, None)));
      ChkSum([Low(c), High(c)] + (two + rest), None) == 0
  {
    var head: seq<Byte> := [0, 0] + two;
    ChainIsConcatenation(head, rest, None);
    assert [0, 0] + (two + rest) == head + rest;
    InsertedAtFront(two + rest);
  }

  // A buffer verifies exactly when its sum is a positive multiple of 65535.
  lemma VerifiesIff(b: seq<Byte>)
    requires |b| < 0x1_0000
    ensures ChkSum(b, None) == 0 <==> WordSum(b) > 0 && WordSum(b) % 0xFFFF == 0
  {
    ChkSumIsResidue(b, None);
    FullResidue(WordSum(b));
  }

  lemma FullResidue(x: nat)
    ensures Residue(x) == 0xFFFF <==> x > 0 && x % 0xFFFF == 0
  {
  }

  // ----- The Internet checksum

  // The sum of the words in network order, an odd last byte padded with zero:
  // section 1 of RFC 1071.
  function NetworkSum(b: seq<Byte>): nat {
    if |b| == 0 then 0
    else if |b| == 1 then b[0] * 256
    else b[0] * 256 + b[1] + NetworkSum(b[2..])
  }

  function InternetChecksum(b: seq<Byte>): Word { 0xFFFF - Residue(NetworkSum(b)) }

  function SwapWord(w: Word): Word { (w % 256) * 256 + w / 256 }

  // The first bytes of the words of `b`.
  function Leading(b: seq<Byte>): nat {
    if |b| < 2 then 0 else b[0] + Leading(b[2..])
  }

  // The byte an odd buffer ends with; 0 for an even one.
  function OddByte(b: seq<Byte>): Byte {
    if |b| % 2 == 1 then b[|b| - 1] else 0
  }

  // 256 times the network sum is the code's sum, up to multiples of 65535, when
  // there is no odd byte.
  lemma {:induction false} SumsAgree(b: seq<Byte>)
    ensures WordSum(b) + 0xFFFF * Leading(b) + 0xFF00 * OddByte(b) == 256 * NetworkSum(b)
  {
    if |b| >= 2 {
      SumsAgree(b[2..]);
      assert OddByte(b[2..]) == OddByte(b);
    }
  }

  // Multiplying a residue by 256 swaps its bytes.
  lemma SwapIsResidue(x: nat)
    ensures Residue(256 * x) == SwapWord(Residue(x))
  {
    var r := Residue(x);
    var k := ResidueQuotient(x);
    assert 256 * x == 256 * r + 0xFFFF * (256 * k);
    if x > 0 {
      ResidueShift(256 * r, 256 * k);
      assert 256 * r == SwapWord(r) + 0xFFFF * (r / 256);
      ResidueShift(SwapWord(r), r / 256);
    }
  }

  lemma SwapComplement(w: Word)
    ensures SwapWord(0xFFFF - w) == 0xFFFF - SwapWord(w)
  {
    Rem256(0xFFFF - w, 255 - w / 256, 255 - w % 256);
  }

  lemma NoMultiple(m: int, odd: Byte)
    requires odd != 0
    ensures 0xFFFF * m != 0xFF00 * odd
  {
  }

  // The code's checksum is the byte-swapped Internet checksum of RFC 1071 exactly
  // when the buffer has even length or ends with a zero byte.
  lemma IsSwappedInternetChecksum(b: seq<Byte>)
    requires |b| < 0x1_0000
    ensures ChkSum(b, None) == SwapWord(InternetChecksum(b)) <==> OddByte(b) == 0
  {
    ChkSumIsResidue(b, None);
    SumsAgree(b);
    SwapIsResidue(NetworkSum(b));
    SwapComplement(Residue(NetworkSum(b)));
    var s, n := WordSum(b), 256 * NetworkSum(b);
    assert ChkSum(b, None) == SwapWord(InternetChecksum(b)) <==> Residue(s) == Residue(n);
    if OddByte(b) == 0 {
      if s > 0 {
        ResidueShift(s, Leading(b));
      } else {
        ZeroSums(b);
      }
    } else {
      var j := ResidueQuotient(s);
      var k := ResidueQuotient(n);
      NoMultiple(k - j - Leading(b), OddByte(b));
    }
  }

  lemma {:induction false} ZeroSums(b: seq<Byte>)
    requires WordSum(b) == 0
    ensures NetworkSum(b) == 0
  {
    if |b| >= 2 {
      ZeroSums(b[2..]);
    }
  }

  // ----- The code

  // The checksum of the first `length` bytes of `buf`.
  method ComputeChkSum(buf: array<Byte>, length: nat, prevSum: Option<Word>) returns (r: Word)
    requires length <= buf.Length && length < 0x1_0000
    ensures r == ChkSum(buf[..length], prevSum)
  {
    ghost var b := buf[..length];
    var sum := Start(prevSum);
    NoOverflow(b, prevSum);
    var i := 0;
    while i < length / 2
      invariant i <= length / 2
      invariant sum == Start(prevSum) + WordSum(b[..2 * i])
    {
      OneWord(b, i, prevSum);
      NoWrap(sum + WordOf(buf[2 * i], buf[2 * i + 1]));
      sum := (sum + WordOf(buf[2 * i], buf[2 * i + 1])) % DWORD;
      i := i + 1;
    }
    if length % 2 == 1 {
      LastByte(b);
      NoWrap(sum + WordOf(0, buf[length - 1]));
      sum := (sum + WordOf(0, buf[length - 1])) % DWORD;
    } else {
      assert b[..2 * i] == b;
    }
    return Complement(Fold(Fold(sum)));
  }

  // Each step of the loop adds one word, and never overflows.
  lemma OneWord(b: seq<Byte>, i: nat, prev: Option<Word>)
    requires 2 * i + 2 <= |b| < 0x1_0000
    ensures WordSum(b[..2 * (i + 1)]) == WordSum(b[..2 * i]) + WordOf(b[2 * i], b[2 * i + 1])
    ensures Start(prev) + WordSum(b[..2 * (i + 1)]) < DWORD
  {
    var word := b[2 * i..2 * i + 2];
    assert b[..2 * (i + 1)] == b[..2 * i] + word;
    SumAppend(b[..2 * i], word);
    assert word[2..] == [];
    NoOverflow(b[..2 * (i + 1)], prev);
  }

  lemma NoWrap(x: nat)
    requires x < DWORD
    ensures x % DWORD == x
  {
  }

  lemma LastByte(b: seq<Byte>)
    requires |b| % 2 == 1
    ensures WordSum(b) == WordSum(b[..|b| - 1]) + WordOf(0, b[|b| - 1])
  {
    assert b == b[..|b| - 1] + [b[|b| - 1]];
    SumAppend(b[..|b| - 1], [b[|b| - 1]]);
  }
}
