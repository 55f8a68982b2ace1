// The management channel's stream cipher: three shift registers, of which the
// first decides each time which of the other two moves.
module Potp {
  const MASK1: bv32 := 0x80000057
  const MASK2: bv32 := 0x80000062
  const MASK3: bv32 := 0x20000029

  // ----- One step

  datatype Key = Key(i1: bv32, i2: bv32, i3: bv32)

  // Does the register shift a one out?
  predicate IsOdd(i: bv32) { i & 1 == 1 }

  function Lfsr(i: bv32, mask: bv32): bv32 {
    if IsOdd(i) then ((i ^ mask) >> 1) | 0x80000000 else i >> 1
  }

  function Step(k: Key): Key {
    if IsOdd(k.i1) then Key(Lfsr(k.i1, MASK1), Lfsr(k.i2, MASK2), k.i3)
    else Key(Lfsr(k.i1, MASK1), k.i2, Lfsr(k.i3, MASK3))
  }

  // The bit a step produces.
  function OutBit(k: Key): bv8 {
    if (k.i2 ^ k.i3) & 1 == 1 then 1 else 0
  }

  // Running a register backwards: bit 31 tells whether a one was shifted out.
  function LfsrBack(i: bv32, mask: bv32): bv32 {
    if i & 0x80000000 == 0x80000000 then ((i << 1) | (1 ^ (mask & 1))) ^ mask else i << 1
  }

  function StepBack(k: Key): Key {
    if k.i1 & 0x80000000 == 0x80000000 then Key(LfsrBack(k.i1, MASK1), LfsrBack(k.i2, MASK2), k.i3)
    else Key(LfsrBack(k.i1, MASK1), k.i2, LfsrBack(k.i3, MASK3))
  }

  // Facts about 32-bit words that make a register step reversible.
  lemma OddBack(i: bv32, mask: bv32)
    requires i & 0x80000000 == 0x80000000
    ensures var j := ((i << 1) | (1 ^ (mask & 1))) ^ mask;
      j & 1 == 1 && ((j ^ mask) >> 1) | 0x80000000 == i
  {
  }

  lemma EvenBack(i: bv32)
    requires i & 0x80000000 == 0
    ensures (i << 1) & 1 == 0 && (i << 1) >> 1 == i
  {
  }

  lemma TopBit(i: bv32)
    ensures i & 0x80000000 == 0x80000000 || i & 0x80000000 == 0
    ensures i & 1 == 1 || i & 1 == 0
  {
  }

  // Each register step has an inverse and tells its branch by bit 31.
  lemma LfsrInverts(i: bv32, mask: bv32)
    ensures LfsrBack(Lfsr(i, mask), mask) == i
    ensures Lfsr(i, mask) & 0x80000000 == 0x80000000 <==> IsOdd(i)
  {
  }

  lemma LfsrBackInverts(i: bv32, mask: bv32)
    ensures Lfsr(LfsrBack(i, mask), mask) == i
    ensures i & 0x80000000 == 0x80000000 <==> IsOdd(LfsrBack(i, mask))
  {
    TopBit(i);
    if i & 0x80000000 == 0x80000000 {
      OddBack(i, mask);
    } else {
      EvenBack(i);
    }
  }

  // The generator step is a bijection on keys.
  lemma StepInverts(k: Key)
    ensures StepBack(Step(k)) == k && Step(StepBack(k)) == k
  {
    LfsrInverts(k.i1, MASK1);
    LfsrInverts(k.i2, MASK2);
    LfsrInverts(k.i3, MASK3);
    LfsrBackInverts(k.i1, MASK1);
    LfsrBackInverts(k.i2, MASK2);
    LfsrBackInverts(k.i3, MASK3);
  }

  // ----- Runs of steps

  function Steps(k: Key, n: nat): Key {
    if n == 0 then k else Step(Steps(k, n - 1))
  }

  lemma {:induction false} StepsAdd(k: Key, m: nat, n: nat)
    ensures Steps(Steps(k, m), n) == Steps(k, m + n)
  {
    if n > 0 {
      StepsAdd(k, m, n - 1);
    }
  }

  // Different keys stay different however long both run.
  lemma {:induction false} StepsInjective(k1: Key, k2: Key, n: nat)
    requires Steps(k1, n) == Steps(k2, n)
    ensures k1 == k2
  {
    if n > 0 {
      StepInverts(Steps(k1, n - 1));
      StepInverts(Steps(k2, n - 1));
      StepsInjective(k1, k2, n - 1);
    }
  }

  // Every key is reached, after `n` steps, from some key.
  lemma {:induction false} StepsOnto(k: Key, n: nat) returns (start: Key)
    ensures Steps(start, n) == k
    decreases n
  {
    start := k;
    if n > 0 {
      StepInverts(k);
      start := StepsOnto(StepBack(k), n - 1);
    }
  }

  // A register is zero after any run exactly when it was zero before: a nonzero
  // one never dies.
  lemma {:induction false} ZeroRegisters(k: Key, n: nat)
    ensures Steps(k, n).i1 == 0 <==> k.i1 == 0
    ensures Steps(k, n).i2 == 0 <==> k.i2 == 0
    ensures Steps(k, n).i3 == 0 <==> k.i3 == 0
  {
    if n > 0 {
      ZeroRegisters(k, n - 1);
      var b := Steps(k, n - 1);
      ZeroIsFixed(b.i1, MASK1);
      ZeroIsFixed(b.i2, MASK2);
      ZeroIsFixed(b.i3, MASK3);
    }
  }

  lemma ZeroIsFixed(i: bv32, mask: bv32)
    ensures Lfsr(i, mask) == 0 <==> i == 0
  {
  }

  // ----- Bytes and words

  // The first `n` bits, low bit first.
  function Bits(k: Key, n: nat): bv8
    requires n <= 8
  {
    if n == 0 then 0 else Bits(k, n - 1) | (OutBit(Steps(k, n)) << (n - 1))
  }

  function RandByte(k: Key): bv8 { Bits(k, 8) }

  // A byte moved to position `i` of a word.
  function Place(b: bv8, i: nat): bv32 {
    var w := b as bv32;
    if i == 0 then w else if i == 1 then w << 8 else if i == 2 then w << 16 else w << 24
  }

  // The first `n` bytes, low byte first.
  function Bytes(k: Key, n: nat): bv32
    requires n <= 4
  {
    if n == 0 then 0 else Bytes(k, n - 1) | Place(RandByte(Steps(k, 8 * (n - 1))), n - 1)
  }

  lemma OneByteMore(k: Key, i: nat)
    requires i < 4
    ensures Bytes(k, i + 1) == Bytes(k, i) | Place(RandByte(Steps(k, 8 * i)), i)
    ensures Steps(Steps(k, 8 * i), 8) == Steps(k, 8 * (i + 1))
  {
    StepsAdd(k, 8 * i, 8);
  }

  function RandLong(k: Key): bv32 { Bytes(k, 4) }

  // The `i`th byte the cipher uses.
  function StreamByte(k: Key, i: nat): bv8 { RandByte(Steps(k, 8 * i)) }

  function Keystream(k: Key, n: nat): (s: seq<bv8>)
    ensures |s| == n
    ensures forall i :: 0 <= i < n ==> s[i] == StreamByte(k, i)
  {
    seq(n, i requires 0 <= i < n => StreamByte(k, i))
  }

  function Xor(a: seq<bv8>, b: seq<bv8>): (r: seq<bv8>)
    requires |a| == |b|
    ensures |r| == |a|
    ensures forall i :: 0 <= i < |a| ==> r[i] == a[i] ^ b[i]
  {
    seq(|a|, i requires 0 <= i < |a| => a[i] ^ b[i])
  }

  function Cipher(k: Key, m: seq<bv8>): (c: seq<bv8>)
    ensures |c| == |m|
  {
    Xor(Keystream(k, |m|), m)
  }

  // Decryption under the same key state undoes encryption.
  lemma CipherUndoes(k: Key, m: seq<bv8>)
    ensures Cipher(k, Cipher(k, m)) == m
  {
  }

  lemma StreamShifts(k: Key, m: nat, i: nat)
    ensures StreamByte(Steps(k, 8 * m), i) == StreamByte(k, m + i)
  {
    StepsAdd(k, 8 * m, 8 * i);
  }

  lemma KeystreamAppends(k: Key, m: nat, n: nat)
    ensures Keystream(k, m) + Keystream(Steps(k, 8 * m), n) == Keystream(k, m + n)
  {
    var a, b, c := Keystream(k, m), Keystream(Steps(k, 8 * m), n), Keystream(k, m + n);
    forall i | 0 <= i < n
      ensures b[i] == c[m + i]
    {
      StreamShifts(k, m, i);
    }
    assert a + b == c;
  }

  // Encrypting two pieces one after the other is encrypting them as one.
  lemma CipherAppends(k: Key, a: seq<bv8>, b: seq<bv8>)
    ensures Cipher(k, a) + Cipher(Steps(k, 8 * |a|), b) == Cipher(k, a + b)
  {
    KeystreamAppends(k, |a|, |b|);
    XorAppends(Keystream(k, |a|), Keystream(Steps(k, 8 * |a|), |b|), a, b);
  }

  lemma XorAppends(s: seq<bv8>, t: seq<bv8>, a: seq<bv8>, b: seq<bv8>)
    requires |s| == |a| && |t| == |b|
    ensures Xor(s, a) + Xor(t, b) == Xor(s + t, a + b)
  {
  }

  // ----- Passwords

  // A password padded to 12 bytes with 0xAA, or cut to 12.
  function Pad(password: seq<bv8>): (b: seq<bv8>)
    ensures |b| == 12
  {
    if |password| >= 12 then password[..12] else password + seq(12 - |password|, _ => 0xAA)
  }

  // Four bytes as a word, first byte high: the byte-reversed little-endian load.
  function WordOf(a: bv8, b: bv8, c: bv8, d: bv8): bv32 {
    ((a as bv32) << 24) | ((b as bv32) << 16) | ((c as bv32) << 8) | (d as bv32)
  }

  lemma WordOfInjective(a: bv8, b: bv8, c: bv8, d: bv8, a': bv8, b': bv8, c': bv8, d': bv8)
    requires WordOf(a, b, c, d) == WordOf(a', b', c', d')
    ensures a == a' && b == b' && c == c' && d == d'
  {
  }

  function KeyOf(b: seq<bv8>): Key
    requires |b| == 12
  {
    Key(WordOf(b[0], b[1], b[2], b[3]), WordOf(b[4], b[5], b[6], b[7]), WordOf(b[8], b[9], b[10], b[11]))
  }

  function InitFromPass(password: seq<bv8>): Key {
    Steps(KeyOf(Pad(password)), 8 * 125)
  }

  // Byte `i` of what the key is made from: the password's, or the fill.
  function KeyByte(password: seq<bv8>, i: nat): bv8 { if i < |password| then password[i] else 0xAA }

  // The generator starts from the password's bytes, high byte first, and is stirred
  // for 1000 steps.
  lemma PasswordStart(p: seq<bv8>)
    ensures InitFromPass(p) == Steps(Key(
      WordOf(KeyByte(p, 0), KeyByte(p, 1), KeyByte(p, 2), KeyByte(p, 3)),
      WordOf(KeyByte(p, 4), KeyByte(p, 5), KeyByte(p, 6), KeyByte(p, 7)),
      WordOf(KeyByte(p, 8), KeyByte(p, 9), KeyByte(p, 10), KeyByte(p, 11))), 1000)
  {
    PadBytes(p);
  }

  lemma PadBytes(p: seq<bv8>)
    ensures forall i :: 0 <= i < 12 ==> Pad(p)[i] == KeyByte(p, i)
  {
  }

  // Two passwords give the same key exactly when they agree in their first 12 bytes,
  // where a shorter one counts as filled up with 0xAA.
  lemma PasswordKeys(p: seq<bv8>, q: seq<bv8>)
    ensures InitFromPass(p) == InitFromPass(q) <==> forall i :: 0 <= i < 12 ==> KeyByte(p, i) == KeyByte(q, i)
  {
    PadBytes(p);
    PadBytes(q);
    var a, b := Pad(p), Pad(q);
    if InitFromPass(p) == InitFromPass(q) {
      StepsInjective(KeyOf(a), KeyOf(b), 8 * 125);
      WordOfInjective(a[0], a[1], a[2], a[3], b[0], b[1], b[2], b[3]);
      WordOfInjective(a[4], a[5], a[6], a[7], b[4], b[5], b[6], b[7]);
      WordOfInjective(a[8], a[9], a[10], a[11], b[8], b[9], b[10], b[11]);
    }
    if forall i :: 0 <= i < 12 ==> KeyByte(p, i) == KeyByte(q, i) {
      assert a == b;
    }
  }

  // ----- Key exchange

  function SwapLong(x: bv32): bv32 {
    (x << 24) | ((x & 0xFF00) << 8) | ((x >> 8) & 0xFF00) | (x >> 24)
  }

  function SwapWord(x: bv16): bv16 {
    (x << 8) | (x >> 8)
  }

  lemma SwapsUndo(x: bv32, y: bv16)
    ensures SwapLong(SwapLong(x)) == x && SwapWord(SwapWord(y)) == y
  {
  }

  // A SYNC packet, in network byte order.
  datatype Sync = Sync(spinCount: bv16, key: Key)

  function XorKeys(a: Key, b: Key): Key {
    Key(a.i1 ^ b.i1, a.i2 ^ b.i2, a.i3 ^ b.i3)
  }

  // Three words drawn from the generator in turn.
  function DrawKey(k: Key): Key {
    Key(RandLong(k), RandLong(Steps(k, 32)), RandLong(Steps(k, 64)))
  }

  // The pad that hides a half key: drawn from the password's generator after
  // `spin` bytes.
  function Mask(password: seq<bv8>, spin: nat): Key {
    DrawKey(Steps(InitFromPass(password), 8 * spin))
  }

  function SwapKey(k: Key): Key {
    Key(SwapLong(k.i1), SwapLong(k.i2), SwapLong(k.i3))
  }

  // A packet offering half key `half` after `spin` bytes of the password's stream.
  function Offer(password: seq<bv8>, spin: bv16, half: Key): Sync {
    Sync(SwapWord(spin), SwapKey(XorKeys(half, Mask(password, spin as nat))))
  }

  // An eighth of the low word.
  function SpinCount(random: bv32): bv16 { ((random & 0xFFFF) as bv16) / 8 }

  // The client's half key and packet, from the clock-seeded generator `rand`.
  function ClientInit(password: seq<bv8>, rand: Key): (Key, Sync) {
    var half := DrawKey(Steps(rand, 32));
    (half, Offer(password, SpinCount(RandLong(rand)), half))
  }

  // The other side's half key.
  function ServerInit(password: seq<bv8>, sync: Sync): Key {
    XorKeys(SwapKey(sync.key), Mask(password, SwapWord(sync.spinCount) as nat))
  }

  lemma XorKeyUndoes(a: Key, b: Key)
    ensures XorKeys(XorKeys(a, b), b) == a && XorKeys(a, b) == XorKeys(b, a)
  {
    WordXorUndoes(a.i1, b.i1);
    WordXorUndoes(a.i2, b.i2);
    WordXorUndoes(a.i3, b.i3);
  }

  lemma WordXorUndoes(a: bv32, b: bv32)
    ensures (a ^ b) ^ b == a && a ^ b == b ^ a
  {
  }

  // The server recovers any half key offered under the same password, whatever the
  // spin count.
  lemma ServerRecovers(password: seq<bv8>, spin: bv16, half: Key)
    ensures ServerInit(password, Offer(password, spin, half)) == half
  {
    var hidden := XorKeys(half, Mask(password, spin as nat));
    SwapsUndo(hidden.i1, spin);
    SwapsUndo(hidden.i2, spin);
    SwapsUndo(hidden.i3, spin);
    XorKeyUndoes(half, Mask(password, spin as nat));
  }

  // Both ends of a SYNC exchange compute the same session key.
  lemma KeysAgree(password: seq<bv8>, rand1: Key, rand2: Key)
    ensures var (half1, sync1) := ClientInit(password, rand1); var (half2, sync2) := ClientInit(password, rand2);
      XorKeys(half1, ServerInit(password, sync2)) == XorKeys(half2, ServerInit(password, sync1))
  {
    var half1, half2 := ClientInit(password, rand1).0, ClientInit(password, rand2).0;
    ServerRecovers(password, SpinCount(RandLong(rand1)), half1);
    ServerRecovers(password, SpinCount(RandLong(rand2)), half2);
    XorKeyUndoes(half1, half2);
  }
}
