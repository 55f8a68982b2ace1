// The cipher's code: every random step moves the registers in place.
module PotpCode {
  import opened Potp

  class Registers {
    var i1: bv32
    var i2: bv32
    var i3: bv32

    function Value(): Key
      reads this
    {
      Key(i1, i2, i3)
    }

    constructor (k: Key)
      ensures Value() == k
    {
      i1, i2, i3 := k.i1, k.i2, k.i3;
    }

    method RandBit() returns (bit: bv8)
      modifies this
      ensures Value() == Step(old(Value())) && bit == OutBit(Value())
    {
      var odd := IsOdd(i1);
      i1 := Lfsr(i1, MASK1);
      if odd {
        i2 := Lfsr(i2, MASK2);
      } else {
        i3 := Lfsr(i3, MASK3);
      }
      bit := if (i2 ^ i3) & 1 == 1 then 1 else 0;
    }

    method RandByte() returns (result: bv8)
      modifies this
      ensures Value() == Steps(old(Value()), 8) && result == Potp.RandByte(old(Value()))
    {
      ghost var k := Value();
      result := 0;
      var i := 0;
      while i < 8
        invariant i <= 8 && Value() == Steps(k, i) && result == Bits(k, i)
      {
        var bit := RandBit();
        result := result | (bit << i);
        i := i + 1;
      }
    }

    method RandLong() returns (result: bv32)
      modifies this
      ensures Value() == Steps(old(Value()), 32) && result == Potp.RandLong(old(Value()))
    {
      ghost var k := Value();
      result := 0;
      var i := 0;
      while i < 4
        invariant i <= 4 && Value() == Steps(k, 8 * i) && result == Bytes(k, i)
      {
        var b := RandByte();
        OneByteMore(k, i);
        result := result | Place(b, i);
        i := i + 1;
      }
    }

    // Move on by `n` bytes, ignoring them.
    method Spin(n: nat)
      modifies this
      ensures Value() == Steps(old(Value()), 8 * n)
    {
      ghost var k := Value();
      var i := 0;
      while i < n
        invariant i <= n && Value() == Steps(k, 8 * i)
      {
        var _ := RandByte();
        StepsAdd(k, 8 * i, 8);
        i := i + 1;
      }
    }

    method Draw() returns (drawn: Key)
      modifies this
      ensures Value() == Steps(old(Value()), 96) && drawn == DrawKey(old(Value()))
    {
      ghost var k := Value();
      var a := RandLong();
      var b := RandLong();
      StepsAdd(k, 32, 32);
      var c := RandLong();
      StepsAdd(k, 64, 32);
      drawn := Key(a, b, c);
    }

    method EncryptOne(from: array<bv8>, to: array<bv8>, i: nat)
      requires i < from.Length && i < to.Length
      modifies this, to
      ensures Value() == Steps(old(Value()), 8) && to[i] == StreamByte(old(Value()), 0) ^ old(from[i])
      ensures forall j {:trigger to[j]} :: 0 <= j < to.Length && j != i ==> to[j] == old(to[j])
    {
      var b := RandByte();
      to[i] := b ^ from[i];
    }

    // Encrypt or decrypt `length` bytes; `from` and `to` may be the same array.
    method Encrypt(from: array<bv8>, to: array<bv8>, length: nat)
      requires length <= from.Length && length <= to.Length
      modifies this, to
      ensures Value() == Steps(old(Value()), 8 * length)
      ensures to[..length] == Cipher(old(Value()), old(from[..length]))
      ensures to[length..] == old(to[length..])
    {
      ghost var k, m := Value(), from[..length];
      var i := 0;
      while i < length
        invariant i <= length && Value() == Steps(k, 8 * i)
        invariant forall j {:trigger from[j]} :: i <= j < length ==> from[j] == m[j]
        invariant forall j {:trigger to[j]} :: 0 <= j < i ==> to[j] == StreamByte(k, j) ^ m[j]
        invariant forall j {:trigger to[j]} :: length <= j < to.Length ==> to[j] == old(to[j])
      {
        StepsAdd(k, 8 * i, 8);
        EncryptOne(from, to, i);
        i := i + 1;
      }
      assert to[..length] == Cipher(k, m);
    }
  }

  method InitFromPass(password: seq<bv8>) returns (key: Registers)
    ensures fresh(key) && key.Value() == Potp.InitFromPass(password)
  {
    key := new Registers(KeyOf(Pad(password)));
    key.Spin(125);
  }

  // `rand` has been seeded from the clock.
  method ClientInit(password: seq<bv8>, rand: Registers) returns (half: Key, sync: Sync)
    modifies rand
    ensures (half, sync) == Potp.ClientInit(password, old(rand.Value()))
  {
    var first := rand.RandLong();
    var spinCount := SpinCount(first);
    half := rand.Draw();
    var passKey := InitFromPass(password);
    passKey.Spin(spinCount as nat);
    var mask := passKey.Draw();
    sync := Sync(SwapWord(spinCount), SwapKey(XorKeys(half, mask)));
  }

  method ServerInit(password: seq<bv8>, sync: Sync) returns (half: Key)
    ensures half == Potp.ServerInit(password, sync)
  {
    var spinCount := SwapWord(sync.spinCount);
    var passKey := InitFromPass(password);
    passKey.Spin(spinCount as nat);
    var mask := passKey.Draw();
    half := XorKeys(SwapKey(sync.key), mask);
  }
}
