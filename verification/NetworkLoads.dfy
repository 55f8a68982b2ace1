// What a whole load leaves: a network answers from the bytes it was sent.
module NetworkLoads {
  import opened LinearProbing
  import opened NetworkEdits
  import opened NetworkModel
  import opened NetworkRuns
  import opened NetworkStore
  import opened Remainders

  // A load message for network `n`.
  predicate IsFor(op: Op, n: nat) { op.LoadOp? && op.load.network == n }

  predicate Whole(op: Op) { op.LoadOp? ==> |op.load.data| == 1024 }

  // The hosts of a network are those from its own number on, as many as its block has
  // bytes; a network number with host bits set has none.
  lemma HostsOf(n: nat, host: nat)
    requires Supported(n)
    ensures NetworkPart(host) == Some(n) <==> IsMasked(n) && n <= host < n + BlockSize(n)
    ensures NetworkPart(host) == Some(n) ==> HostIndex(host) == host - n
  {
    if IsMasked(n) && n <= host < n + BlockSize(n) {
      if IsClassB(n) {
        Rem64K(host, n / 0x10000, host - n);
      } else {
        Rem256(host, n / 0x100, host - n);
      }
    }
    if NetworkPart(host) == Some(n) {
      OnlyMaskedNetworksAnswer(n, host);
    }
  }

  // How many bytes of a message are copied.
  function PieceSize(n: nat): nat { if IsClassB(n) then 1024 else 256 }

  lemma PieceIsFront(load: Load)
    requires |load.data| == 1024
    ensures |Piece(load)| == PieceSize(load.network)
    ensures forall i :: 0 <= i < PieceSize(load.network) ==> Piece(load)[i] == load.data[i]
  {
  }

  // The message writes byte `k` of the block of `n`.
  predicate Writes(op: Op, n: nat, k: nat)
    requires Whole(op)
  {
    IsFor(op, n) && op.load.offset <= k < op.load.offset + PieceSize(n)
  }

  function ByteSent(op: Op, n: nat, k: nat): Byte
    requires Whole(op) && Writes(op, n, k)
  {
    op.load.data[k - op.load.offset]
  }

  predicate Fits(op: Op, n: nat, size: nat)
    requires Whole(op)
  {
    IsFor(op, n) ==> op.load.offset + |Piece(op.load)| <= size
  }

  function Fill(block: seq<Byte>, op: Op, n: nat): (r: seq<Byte>)
    requires Whole(op) && Fits(op, n, |block|)
    ensures |r| == |block|
  {
    if IsFor(op, n) then Overwrite(block, op.load.offset, Piece(op.load)) else block
  }

  predicate AllFit(ops: seq<Op>, n: nat, size: nat)
    requires WholeBlocks(ops)
  {
    forall i {:trigger ops[i]} :: 0 <= i < |ops| ==> Fits(ops[i], n, size)
  }

  // The block with the pieces of a run written over it, in order.
  function FillAll(block: seq<Byte>, ops: seq<Op>, n: nat): (r: seq<Byte>)
    requires WholeBlocks(ops) && AllFit(ops, n, |block|)
    ensures |r| == |block|
    decreases |ops|
  {
    if ops == [] then block else FillAll(Fill(block, ops[0], n), ops[1..], n)
  }

  lemma FilledOnce(block: seq<Byte>, op: Op, n: nat, k: nat)
    requires Whole(op) && Fits(op, n, |block|)
    ensures Writes(op, n, k) ==> k < |block|
    ensures k < |block| ==> Fill(block, op, n)[k] == if Writes(op, n, k) then ByteSent(op, n, k) else block[k]
  {
    if IsFor(op, n) {
      PieceIsFront(op.load);
    }
  }

  lemma {:induction false} UntouchedByte(block: seq<Byte>, ops: seq<Op>, n: nat, k: nat)
    requires WholeBlocks(ops) && AllFit(ops, n, |block|) && k < |block|
    requires forall i {:trigger ops[i]} :: 0 <= i < |ops| ==> !Writes(ops[i], n, k)
    ensures FillAll(block, ops, n)[k] == block[k]
    decreases |ops|
  {
    if ops != [] {
      FilledOnce(block, ops[0], n, k);
      UntouchedByte(Fill(block, ops[0], n), ops[1..], n, k);
    }
  }

  // Message `j` is the last of the run to write byte `k`.
  predicate WritesLast(ops: seq<Op>, n: nat, k: nat, j: nat)
    requires WholeBlocks(ops)
  {
    && j < |ops| && Writes(ops[j], n, k)
    && forall i {:trigger ops[i]} :: j < i < |ops| ==> !Writes(ops[i], n, k)
  }

  // Each byte is the one sent last for it.
  lemma {:induction false} FilledByte(block: seq<Byte>, ops: seq<Op>, n: nat, k: nat, j: nat)
    requires WholeBlocks(ops) && AllFit(ops, n, |block|) && WritesLast(ops, n, k, j)
    ensures k < |block| && FillAll(block, ops, n)[k] == ByteSent(ops[j], n, k)
    decreases |ops|
  {
    FilledOnce(block, ops[0], n, k);
    if j == 0 {
      UntouchedByte(Fill(block, ops[0], n), ops[1..], n, k);
    } else {
      FilledByte(Fill(block, ops[0], n), ops[1..], n, k, j - 1);
    }
  }

  // If any message writes it, one does so last.
  lemma {:induction false} SomeWritesLast(ops: seq<Op>, n: nat, k: nat, i: nat) returns (j: nat)
    requires WholeBlocks(ops) && i < |ops| && Writes(ops[i], n, k)
    ensures i <= j && WritesLast(ops, n, k, j)
    decreases |ops| - i
  {
    if l :| i < l < |ops| && Writes(ops[l], n, k) {
      j := SomeWritesLast(ops, n, k, l);
    } else {
      j := i;
    }
  }

  // ----- A load on the maps

  // Neither starts nor ends a load of `n`: lookups, releases, other networks' loads,
  // and pieces.
  predicate Between(op: Op, n: nat) { IsFor(op, n) ==> !op.load.begin && !op.load.end }

  lemma BetweenFills(m: Model, op: Op, n: nat)
    requires Whole(op) && Between(op, n) && Supported(n) && n in m.staged && ModelStep(m, op).1 != Halted
    ensures Fits(op, n, |m.staged[n]|)
    ensures n in ModelStep(m, op).0.staged && ModelStep(m, op).0.staged[n] == Fill(m.staged[n], op, n)
  {
  }

  lemma EndFills(m: Model, op: Op, n: nat)
    requires Whole(op) && IsFor(op, n) && !op.load.begin && op.load.end && Supported(n) && n in m.staged
    requires ModelStep(m, op).1 != Halted
    ensures Fits(op, n, |m.staged[n]|)
    ensures n in ModelStep(m, op).0.loaded && ModelStep(m, op).0.loaded[n] == Fill(m.staged[n], op, n)
  {
  }

  lemma BeginFills(m: Model, op: Op, n: nat)
    requires Whole(op) && IsFor(op, n) && op.load.begin && !op.load.end && ModelStep(m, op).1 == Replies([LoadAck])
    ensures Supported(n) && Fits(op, n, |op.junk|)
    ensures n in ModelStep(m, op).0.staged && ModelStep(m, op).0.staged[n] == Fill(op.junk, op, n)
  {
  }

  // The run ends with the END message of `n`, and nothing before it does more than
  // add pieces.
  predicate Finishes(ops: seq<Op>, n: nat) {
    && ops != [] && IsFor(ops[|ops| - 1], n) && !ops[|ops| - 1].load.begin && ops[|ops| - 1].load.end
    && forall i {:trigger ops[i]} :: 0 <= i < |ops| - 1 ==> Between(ops[i], n)
  }

  lemma LastFills(m: Model, ops: seq<Op>, n: nat)
    requires WholeBlocks(ops) && |ops| == 1 && Finishes(ops, n) && Supported(n) && n in m.staged
    requires Halted !in RunModel(m, ops)
    ensures AllFit(ops, n, |m.staged[n]|)
    ensures n in EndModel(m, ops).loaded && EndModel(m, ops).loaded[n] == FillAll(m.staged[n], ops, n)
  {
    assert ModelStep(m, ops[0]).1 == RunModel(m, ops)[0];
    EndFills(m, ops[0], n);
    assert ops[1..] == [];
  }

  lemma FirstFills(m: Model, ops: seq<Op>, n: nat) returns (m': Model)
    requires WholeBlocks(ops) && |ops| > 1 && Finishes(ops, n) && Supported(n) && n in m.staged
    requires Halted !in RunModel(m, ops)
    ensures Finishes(ops[1..], n) && Fits(ops[0], n, |m.staged[n]|)
    ensures n in m'.staged && m'.staged[n] == Fill(m.staged[n], ops[0], n)
    ensures Halted !in RunModel(m', ops[1..]) && EndModel(m, ops) == EndModel(m', ops[1..])
  {
    m' := ModelStep(m, ops[0]).0;
    assert ModelStep(m, ops[0]).1 == RunModel(m, ops)[0];
    assert RunModel(m, ops)[1..] == RunModel(m', ops[1..]);
    BetweenFills(m, ops[0], n);
  }

  lemma {:induction false} RestFills(m: Model, ops: seq<Op>, n: nat)
    requires WholeBlocks(ops) && Finishes(ops, n) && Supported(n) && n in m.staged && Halted !in RunModel(m, ops)
    ensures AllFit(ops, n, |m.staged[n]|)
    ensures n in EndModel(m, ops).loaded && EndModel(m, ops).loaded[n] == FillAll(m.staged[n], ops, n)
    decreases |ops|
  {
    if |ops| == 1 {
      LastFills(m, ops, n);
    } else {
      var m' := FirstFills(m, ops, n);
      RestFills(m', ops[1..], n);
      FitsAll(ops, n, |m.staged[n]|);
    }
  }

  lemma FitsAll(ops: seq<Op>, n: nat, size: nat)
    requires WholeBlocks(ops) && ops != [] && Fits(ops[0], n, size) && AllFit(ops[1..], n, size)
    ensures AllFit(ops, n, size)
  {
    forall i | 0 <= i < |ops|
      ensures Fits(ops[i], n, size)
    {
      assert i > 0 ==> ops[i] == ops[1..][i - 1];
    }
  }

  // A whole load: an acknowledged BEGIN, and a rest that finishes it.
  ghost predicate IsLoad(m: Model, ops: seq<Op>, n: nat)
    requires WholeBlocks(ops)
  {
    && ops != [] && IsFor(ops[0], n) && ops[0].load.begin && !ops[0].load.end && Finishes(ops[1..], n)
    && ModelStep(m, ops[0]).1 == Replies([LoadAck]) && Halted !in RunModel(m, ops)
  }

  lemma LoadFills(m: Model, ops: seq<Op>, n: nat)
    requires WholeBlocks(ops) && IsLoad(m, ops, n)
    ensures AllFit(ops, n, |ops[0].junk|)
    ensures n in EndModel(m, ops).loaded && EndModel(m, ops).loaded[n] == FillAll(ops[0].junk, ops, n)
  {
    var m' := ModelStep(m, ops[0]).0;
    BeginFills(m, ops[0], n);
    assert RunModel(m, ops)[1..] == RunModel(m', ops[1..]);
    RestFills(m', ops[1..], n);
    FitsAll(ops, n, |ops[0].junk|);
  }

  lemma LoadedClass(m: Model, ops: seq<Op>, n: nat, host: nat, j: nat)
    requires WholeBlocks(ops) && IsLoad(m, ops, n)
    requires IsMasked(n) && n <= host < n + BlockSize(n) && WritesLast(ops, n, host - n, j)
    ensures ClassOf(EndModel(m, ops), host) == ByteSent(ops[j], n, host - n)
  {
    BeginFills(m, ops[0], n);
    LoadFills(m, ops, n);
    FilledByte(ops[0].junk, ops, n, host - n, j);
    HostsOf(n, host);
  }

  // ----- A load on the tables

  // Over any run that loads network `n`, pieces in any order and lookups, releases
  // and loads of other networks between them: afterwards a host of `n` has exactly
  // the class that was sent last for it.
  lemma LoadRoundTrip(s: Store, m: Model, ops: seq<Op>, n: nat, host: nat, j: nat)
    requires Represents(s, m) && WholeBlocks(ops) && RunEnabled(s, m, ops) && IsLoad(m, ops, n)
    requires IsMasked(n) && n <= host < n + BlockSize(n) && WritesLast(ops, n, host - n, j)
    ensures RunAllowed(s, ops) && Owned(EndStore(s, ops))
    ensures Classify(EndStore(s, ops), host) == ByteSent(ops[j], n, host - n)
  {
    RunIsMap(s, m, ops);
    LookupIsMap(EndStore(s, ops), EndModel(m, ops), host);
    LoadedClass(m, ops, n, host, j);
  }

  // The pieces cover the network's hosts.
  predicate Covers(ops: seq<Op>, n: nat)
    requires WholeBlocks(ops)
  {
    forall k {:trigger HasWriter(ops, n, k)} :: 0 <= k < BlockSize(n) ==> HasWriter(ops, n, k)
  }

  predicate HasWriter(ops: seq<Op>, n: nat, k: nat)
    requires WholeBlocks(ops)
  {
    exists i {:trigger ops[i]} :: 0 <= i < |ops| && Writes(ops[i], n, k)
  }

  // Pieces that cover the network leave nothing of what was there before: every host
  // is answered, through the cache too, from what was sent.
  lemma CoveredLoad(s: Store, m: Model, ops: seq<Op>, n: nat, host: nat, now: nat) returns (j: nat)
    requires Represents(s, m) && WholeBlocks(ops) && RunEnabled(s, m, ops) && IsLoad(m, ops, n) && Covers(ops, n)
    requires IsMasked(n) && n <= host < n + BlockSize(n)
    ensures RunAllowed(s, ops) && Owned(EndStore(s, ops)) && WritesLast(ops, n, host - n, j)
    ensures Lookup(EndStore(s, ops), host, now).1 == ByteSent(ops[j], n, host - n)
  {
    assert HasWriter(ops, n, host - n);
    var i :| 0 <= i < |ops| && Writes(ops[i], n, host - n);
    j := SomeWritesLast(ops, n, host - n, i);
    LoadRoundTrip(s, m, ops, n, host, j);
    RunIsMap(s, m, ops);
    LookupIsTransparent(EndStore(s, ops), host, now);
  }
}
