/** Transaction intake and deliberate tampering: the two free functions that
    change a Blockchain from outside it. */
module Intake {
  import opened Ledger

  /** The latest block already holds two or more transactions, so a new block
      is mined before the transaction is recorded. */
  predicate Full(b: Block)
  {
    |b.transactions| >= 2
  }

  /** The chain after adding `t` at timestamp `now`, where `newProof` is the
      proof the search returned (used only when a block is mined). The block
      that was last on entry receives the transaction, whether or not a new
      block was mined behind it. */
  function ChainAfterAdd(o: Oracle, chain: seq<Block>, t: Transaction, now: string, newProof: int)
    : (r: seq<Block>)
    requires |chain| > 0
    ensures var last := |chain| - 1;
      && |r| == (if Full(chain[last]) then |chain| + 1 else |chain|)
      && r[..last] == chain[..last]
      && r[last] == chain[last].(transactions := chain[last].transactions + [Vars(t)])
    ensures var last := |chain| - 1;
      Full(chain[last]) ==>
        && r[last + 1].index == |chain| + 1 && r[last + 1].timestamp == now
        && r[last + 1].proof == newProof
        && r[last + 1].prevHash == chain[last].hash
        && r[last + 1].transactions == []
        && r[last + 1].hash == o.blockDigest(CreationDict(r[last + 1]))
  {
    var last := |chain| - 1;
    var grown := if Full(chain[last])
                 then chain + [NewBlock(o, |chain| + 1, now, newProof, chain[last].hash)]
                 else chain;
    grown[last := chain[last].(transactions := chain[last].transactions + [Vars(t)])]
  }

  /** Records `t` in the latest block. When that block already holds two or
      more transactions a new block is mined first, with the least proof that
      solves the puzzle against the latest block's proof and linked to its
      stored hash; the transaction still goes to the block read on entry. */
  method AddTransaction(t: Transaction, bc: Blockchain, now: string)
    requires bc.Valid()
    requires Full(bc.LatestBlock()) ==> Solvable(bc.digests, bc.LatestBlock().proof)
    modifies bc
    ensures bc.Valid()
    ensures Full(old(bc.LatestBlock())) ==>
              IsFirstSolution(bc.digests, old(bc.LatestBlock()).proof, bc.LatestBlock().proof)
    ensures bc.chain == ChainAfterAdd(bc.digests, old(bc.chain), t, now, bc.LatestBlock().proof)
    ensures Honest(bc.digests, old(bc.chain)) ==> Honest(bc.digests, bc.chain)
  {
    var last := |bc.chain| - 1;
    var latestBlock := bc.LatestBlock();
    ghost var proofUsed := 0;
    if |latestBlock.transactions| >= 2 {
      var newProof := bc.ProofWork(latestBlock.proof);
      var newBlock := bc.CreateBlock(newProof, latestBlock.hash, now);
      proofUsed := newProof;
    }
    // latest_block is the dictionary read on entry: the append lands in it
    bc.chain := bc.chain[last := latestBlock.(transactions := latestBlock.transactions + [Vars(t)])];
    assert bc.chain == ChainAfterAdd(bc.digests, old(bc.chain), t, now, proofUsed);
    if Honest(bc.digests, old(bc.chain)) {
      AddTransactionKeepsHonest(bc.digests, old(bc.chain), t, now, proofUsed);
    }
  }

  /** The chain as only construction and AddTransaction leave it: indices are
      positions, the genesis block has proof 1 and link "0", every stored hash
      is the digest of its block's creation dictionary, every link is the
      predecessor's stored hash, every proof is the least solution against its
      predecessor's, and only transaction snapshots are recorded, three in every
      block but the last and at most two in the last. */
  ghost predicate Honest(o: Oracle, chain: seq<Block>)
  {
    && |chain| > 0 && WellIndexed(chain)
    && chain[0].proof == 1 && chain[0].prevHash == "0"
    && (forall i :: 0 <= i < |chain| ==> chain[i].hash == o.blockDigest(CreationDict(chain[i])))
    && (forall i :: 1 <= i < |chain| ==>
          chain[i].prevHash == chain[i - 1].hash && IsFirstSolution(o, chain[i - 1].proof, chain[i].proof))
    && (forall i :: 0 <= i < |chain| - 1 ==> |chain[i].transactions| == 3)
    && |chain[|chain| - 1].transactions| <= 2
    && (forall i, j :: 0 <= i < |chain| && 0 <= j < |chain[i].transactions| ==>
          chain[i].transactions[j].Snapshot?)
  }

  /** The chain built by construction satisfies the invariant. */
  lemma GenesisHonest(o: Oracle, now: string)
    ensures Honest(o, [NewBlock(o, 1, now, 1, "0")])
  {
  }

  /** Intake preserves the invariant when a mined block carries the least
      solution. */
  lemma AddTransactionKeepsHonest(o: Oracle, chain: seq<Block>, t: Transaction, now: string, newProof: int)
    requires Honest(o, chain)
    requires Full(chain[|chain| - 1]) ==> IsFirstSolution(o, chain[|chain| - 1].proof, newProof)
    ensures Honest(o, ChainAfterAdd(o, chain, t, now, newProof))
  {
  }

  /** Under a collision-free block digest, validation rejects every chain of two
      or more blocks that construction and AddTransaction produce: each link holds
      the predecessor's creation digest, while validation compares it with the
      digest of the predecessor's current dictionary, which has a hash key. */
  lemma HonestChainRejected(o: Oracle, chain: seq<Block>)
    requires Injective(o.blockDigest)
    requires Honest(o, chain) && |chain| >= 2
    ensures !ChainValid(o, chain)
  {
    StoredHashNeverRecomputed(o, chain[0]);
    assert !PairValid(o, chain[0], chain[1]);
  }

  /** How corrupting changes one block: the single tamper marker replaces its
      transactions, and its stored hash becomes the digest of its dictionary with
      the new transactions and the old hash key still in it. */
  function CorruptedBlock(o: Oracle, b: Block): Block
  {
    var tampered := b.(transactions := [CorruptedMarker]);
    tampered.(hash := o.blockDigest(Dict(tampered)))
  }

  /** The chain after corrupting position k. */
  function CorruptAt(o: Oracle, chain: seq<Block>, k: nat): (r: seq<Block>)
    requires k < |chain|
    ensures |r| == |chain|
    ensures forall i :: 0 <= i < |chain| && i != k ==> r[i] == chain[i]
    ensures r[k].index == chain[k].index && r[k].timestamp == chain[k].timestamp
    ensures r[k].proof == chain[k].proof && r[k].prevHash == chain[k].prevHash
    ensures r[k].transactions == [CorruptedMarker]
    ensures r[k].hash == o.blockDigest(Dict(chain[k]).(transactions := [CorruptedMarker]))
  {
    chain[k := CorruptedBlock(o, chain[k])]
  }

  /** What corrupting an index does: an index at or past the end is reported
      and changes nothing; a negative index counts from the end as a Python list
      subscript does, and one below minus the length raises IndexError. */
  datatype CorruptOutcome = CorruptedPosition(position: nat) | InvalidBlockIndex | IndexErrorRaised

  /** Replaces one block's transactions with the tamper marker and recomputes
      that block's stored hash; the next block's link is left as it was. */
  method CorruptBlockchain(bc: Blockchain, index: int) returns (outcome: CorruptOutcome)
    modifies bc
    ensures index >= |old(bc.chain)| ==> outcome == InvalidBlockIndex && bc.chain == old(bc.chain)
    ensures index < -|old(bc.chain)| ==> outcome == IndexErrorRaised && bc.chain == old(bc.chain)
    ensures 0 <= index < |old(bc.chain)| ==>
              outcome == CorruptedPosition(index) && bc.chain == CorruptAt(bc.digests, old(bc.chain), index)
    ensures -|old(bc.chain)| <= index < 0 ==>
              outcome == CorruptedPosition(|old(bc.chain)| + index)
              && bc.chain == CorruptAt(bc.digests, old(bc.chain), |old(bc.chain)| + index)
    ensures WellIndexed(old(bc.chain)) ==> WellIndexed(bc.chain)
  {
    if index >= |bc.chain| {
      return InvalidBlockIndex;
    }
    if index < -|bc.chain| {
      return IndexErrorRaised;
    }
    var position: nat := if index < 0 then |bc.chain| + index else index;
    var blockToCorrupt := bc.chain[position].(transactions := [CorruptedMarker]);
    blockToCorrupt := blockToCorrupt.(hash := bc.Hash(Dict(blockToCorrupt)));
    bc.chain := bc.chain[position := blockToCorrupt];
    outcome := CorruptedPosition(position);
  }

  /** Corrupting block k leaves every pair's verdict as it was except the pair
      (k, k + 1): block k keeps its link and proof, and only its successor reads
      the changed dictionary. */
  lemma CorruptOnlyAffectsNextPair(o: Oracle, chain: seq<Block>, k: nat, i: nat)
    requires k < |chain| && 1 <= i < |chain| && i != k + 1
    ensures PairValid(o, CorruptAt(o, chain, k)[i - 1], CorruptAt(o, chain, k)[i])
            == PairValid(o, chain[i - 1], chain[i])
  {
  }

  /** The validator's blind spot: corrupting the last block never changes the
      verdict, since no successor holds a link to it. */
  lemma CorruptLastBlockUndetected(o: Oracle, chain: seq<Block>)
    requires |chain| > 0
    ensures ChainValid(o, CorruptAt(o, chain, |chain| - 1)) == ChainValid(o, chain)
  {
  }

  /** Corrupting a block that has a successor is detected, through the
      successor's link, in a chain that was valid, provided the block did not
      already hold exactly the tamper marker and the block digest does not
      collide. */
  lemma CorruptDetectedBySuccessor(o: Oracle, chain: seq<Block>, k: nat)
    requires Injective(o.blockDigest)
    requires ChainValid(o, chain)
    requires k + 1 < |chain|
    requires chain[k].transactions != [CorruptedMarker]
    ensures !ChainValid(o, CorruptAt(o, chain, k))
  {
    var r := CorruptAt(o, chain, k);
    assert PairValid(o, chain[k], chain[k + 1]);
    assert r[k + 1] == chain[k + 1];
    assert Dict(r[k]) != Dict(chain[k]) by {
      assert Dict(r[k]).transactions != Dict(chain[k]).transactions;
    }
    assert !PairValid(o, r[k], r[k + 1]);
  }

  /** Three transfers submitted to a fresh chain, then a validity check: the
      third submission mines block 2 but lands in block 1, which ends with all
      three entries while block 2 stays empty; with a collision-free digest
      the check reports the chain compromised. */
  method ThreeTransfersScenario(o: Oracle, now: string, t1: Transaction, t2: Transaction, t3: Transaction)
    returns (chain: seq<Block>, valid: bool)
    requires Solvable(o, 1)
    ensures |chain| == 2
    ensures chain[0].transactions == [Vars(t1), Vars(t2), Vars(t3)]
    ensures chain[1].transactions == [] && chain[1].prevHash == chain[0].hash
    ensures IsFirstSolution(o, 1, chain[1].proof)
    ensures valid == ChainValid(o, chain)
    ensures Injective(o.blockDigest) ==> !valid
  {
    var bc := new Blockchain(o, now);
    AddTransaction(t1, bc, now);
    AddTransaction(t2, bc, now);
    AddTransaction(t3, bc, now);
    chain := bc.chain;
    valid := bc.ValidChain(chain);
    if Injective(o.blockDigest) {
      HonestChainRejected(o, chain);
    }
  }
}
