// Management messages on the wire: a checksum and a random word in front of the
// body, all encrypted under the session key.
module Messages {
  import opened LinearProbing
  import C = Checksum
  import opened Potp

  type Word = C.Word

  // Bytes as numbers, for the checksum.
  function Numbers(b: seq<bv8>): (r: seq<C.Byte>)
    ensures |r| == |b|
    ensures forall i :: 0 <= i < |b| ==> r[i] == b[i] as nat
  {
    seq(|b|, i requires 0 <= i < |b| => b[i] as nat)
  }

  // The byte with value `x`.
  function ByteOf(x: C.Byte): (b: bv8)
    ensures b as nat == x
  {
    if x == 0 then 0 else ByteOf(x - 1) + 1
  }

  // A word as it lies in memory, low byte first.
  function WordBytes(w: Word): (b: seq<bv8>)
    ensures |b| == 2 && Numbers(b) == [C.Low(w), C.High(w)]
  {
    var b := [ByteOf(C.Low(w)), ByteOf(C.High(w))];
    assert Numbers(b) == [C.Low(w), C.High(w)];
    b
  }

  const HEADER: nat := 4

  // The checksum of a message: chained over the zeroed field and the random word,
  // then over the body.
  function Sum(random: Word, body: seq<bv8>): Word {
    var head := C.ChkSum([0, 0] + Numbers(WordBytes(random)), None);
    C.ChkSum(Numbers(body), Some(head))
  }

  // Checksum and random word.
  function Header(random: Word, body: seq<bv8>): (h: seq<bv8>)
    ensures |h| == HEADER
  {
    WordBytes(Sum(random, body)) + WordBytes(random)
  }

  // Sending under key `k`: the header words are encrypted first, then the body.
  function Seal(k: Key, random: Word, body: seq<bv8>): (Key, seq<bv8>) {
    var after := Steps(k, 8 * HEADER);
    (Steps(after, 8 * |body|), Cipher(k, Header(random, body)) + Cipher(after, body))
  }

  // Receiving under key `k`: everything is decrypted in one call and then checked.
  function Open(k: Key, rest: seq<bv8>): (r: (Key, Option<seq<bv8>>)) {
    var plain := Cipher(k, rest);
    (Steps(k, 8 * |rest|),
     if |rest| >= HEADER && C.ChkSum(Numbers(plain), None) == 0 then Some(plain[HEADER..]) else None)
  }

  lemma HeaderNumbers(random: Word, body: seq<bv8>)
    ensures var c := Sum(random, body);
      Numbers(Header(random, body) + body) == [C.Low(c), C.High(c)] + (Numbers(WordBytes(random)) + Numbers(body))
  {
  }

  lemma SumVerifies(random: Word, body: seq<bv8>)
    requires |body| + HEADER < 0x1_0000
    ensures C.ChkSum(Numbers(Header(random, body) + body), None) == 0
  {
    C.ChainedVerifies(Numbers(WordBytes(random)), Numbers(body));
    HeaderNumbers(random, body);
  }

  // In the clear, a header is a checksum that makes the whole message verify, and the
  // random word, low byte first.
  lemma HeaderSays(random: Word, body: seq<bv8>)
    requires |body| + HEADER < 0x1_0000
    ensures var h := Header(random, body);
      C.ChkSum(Numbers(h + body), None) == 0 && h[2] as nat + 256 * h[3] as nat == random
  {
    SumVerifies(random, body);
    var b := WordBytes(random);
    assert Header(random, body)[2..] == b;
    assert Numbers(b)[0] == b[0] as nat && Numbers(b)[1] == b[1] as nat;
  }

  // Two calls encipher header and body as one would.
  lemma SealIs(k: Key, random: Word, body: seq<bv8>)
    ensures Seal(k, random, body) == (Steps(k, 8 * (HEADER + |body|)), Cipher(k, Header(random, body) + body))
  {
    CipherAppends(k, Header(random, body), body);
    StepsAdd(k, 8 * HEADER, 8 * |body|);
  }

  lemma OpenIs(k: Key, plain: seq<bv8>)
    requires |plain| >= HEADER && C.ChkSum(Numbers(plain), None) == 0
    ensures Open(k, Cipher(k, plain)) == (Steps(k, 8 * |plain|), Some(plain[HEADER..]))
  {
    CipherUndoes(k, plain);
  }

  // A sealed message opens to its body, whatever the key, the random word and the
  // body, and leaves both ends with the same key.
  lemma SealOpens(k: Key, random: Word, body: seq<bv8>)
    requires |body| + HEADER < 0x1_0000
    ensures var (after, rest) := Seal(k, random, body);
      Open(k, rest) == (after, Some(body))
  {
    var h := Header(random, body);
    SealIs(k, random, body);
    SumVerifies(random, body);
    OpenIs(k, h + body);
    assert (h + body)[HEADER..] == body;
  }

  // ----- Two ends in step

  // A message of a conversation: which end sends it, and what.
  datatype Sent = Sent(byManager: bool, random: Word, body: seq<bv8>)

  // Every message is delivered before the next is sent. Returns both ends' keys
  // and the bodies that were accepted.
  function Converse(manager: Key, filter: Key, sent: seq<Sent>): (r: (Key, Key, seq<Option<seq<bv8>>>))
    decreases |sent|
  {
    if sent == [] then (manager, filter, [])
    else
      var m := sent[0];
      var (out, rest) := Seal(if m.byManager then manager else filter, m.random, m.body);
      var (inn, got) := Open(if m.byManager then filter else manager, rest);
      var (a, b, more) := Converse(if m.byManager then out else inn, if m.byManager then inn else out, sent[1..]);
      (a, b, [got] + more)
  }

  // One message between ends that hold the same key.
  lemma OneMessage(k: Key, sent: seq<Sent>)
    requires sent != [] && |sent[0].body| + HEADER < 0x1_0000
    ensures var after := Seal(k, sent[0].random, sent[0].body).0;
      var (a, b, more) := Converse(after, after, sent[1..]);
      Converse(k, k, sent) == (a, b, [Some(sent[0].body)] + more)
  {
    SealOpens(k, sent[0].random, sent[0].body);
  }

  // Ends that start with the same key stay in step over any conversation, in either
  // direction, and every body arrives.
  lemma {:induction false} StaysInStep(k: Key, sent: seq<Sent>)
    requires forall m :: m in sent ==> |m.body| + HEADER < 0x1_0000
    ensures var (a, b, got) := Converse(k, k, sent);
      a == b && |got| == |sent| && forall i :: 0 <= i < |sent| ==> got[i] == Some(sent[i].body)
    decreases |sent|
  {
    if sent != [] {
      OneMessage(k, sent);
      StaysInStep(Seal(k, sent[0].random, sent[0].body).0, sent[1..]);
    }
  }

  // ----- SYNC bodies

  function LongBytes(x: bv32): (b: seq<bv8>)
    ensures |b| == 4
  {
    [(x & 0xFF) as bv8, ((x >> 8) & 0xFF) as bv8, ((x >> 16) & 0xFF) as bv8, ((x >> 24) & 0xFF) as bv8]
  }

  function LongOf(b: seq<bv8>): bv32
    requires |b| == 4
  {
    WordOf(b[3], b[2], b[1], b[0])
  }

  lemma LongRoundTrip(x: bv32)
    ensures LongOf(LongBytes(x)) == x
  {
  }

  // Spin count, a word of padding, and the three key words, as they lie in memory.
  function SyncBytes(s: Sync): (b: seq<bv8>)
    ensures |b| == 16
  {
    LongBytes(Widen(s.spinCount)) + LongBytes(s.key.i1) + LongBytes(s.key.i2) + LongBytes(s.key.i3)
  }

  function LowWord(x: bv32): bv16 { (x & 0xFFFF) as bv16 }

  function Widen(x: bv16): bv32 { x as bv32 }

  function SyncOf(b: seq<bv8>): Sync
    requires |b| >= 16
  {
    Sync(LowWord(LongOf(b[..4])), Key(LongOf(b[4..8]), LongOf(b[8..12]), LongOf(b[12..16])))
  }

  lemma SpinCountFits(x: bv16)
    ensures LowWord(Widen(x)) == x
  {
  }

  lemma FourParts(a: seq<bv8>, b: seq<bv8>, c: seq<bv8>, d: seq<bv8>)
    requires |a| == |b| == |c| == |d| == 4
    ensures var all := a + b + c + d;
      all[..4] == a && all[4..8] == b && all[8..12] == c && all[12..16] == d
  {
  }

  lemma SyncRoundTrip(s: Sync)
    ensures SyncOf(SyncBytes(s)) == s
  {
    var spin := Widen(s.spinCount);
    var a, b, c, d := LongBytes(spin), LongBytes(s.key.i1), LongBytes(s.key.i2), LongBytes(s.key.i3);
    FourParts(a, b, c, d);
    assert LongOf(a) == spin by { LongRoundTrip(spin); }
    assert LongOf(b) == s.key.i1 by { LongRoundTrip(s.key.i1); }
    assert LongOf(c) == s.key.i2 by { LongRoundTrip(s.key.i2); }
    assert LongOf(d) == s.key.i3 by { LongRoundTrip(s.key.i3); }
    assert LowWord(spin) == s.spinCount by { SpinCountFits(s.spinCount); }
  }
}
