/** The ledger engine: block records, the canonical block digest, the
    proof-of-work puzzle and chain validation (class `Blockchain`). */
module Ledger {

  datatype Option<T> = None | Some(value: T)

  /** A proposed transfer. The shell builds it from three lines of input, so
      every field is text; nothing about the fields is validated. */
  datatype Transaction = Transaction(sender: string, recipient: string, amount: string)

  /** One element of a block's transaction list: the attribute snapshot of a
      Transaction, or the tamper marker written by corruption. */
  datatype Entry = Snapshot(tx: Transaction) | CorruptedMarker

  /** The attribute dictionary of a transaction, as appended to a block. */
  function Vars(t: Transaction): Entry
  {
    Snapshot(t)
  }

  /** A block record as it sits in the chain, including its stored hash. */
  datatype Block = Block(index: int, timestamp: string, proof: int, prevHash: string,
                         transactions: seq<Entry>, hash: string)

  /** The dictionary that is serialised and hashed. `hash` is None while a block
      is being built (the dictionary has no hash key yet) and Some(h) once the
      stored hash h is part of it. */
  datatype BlockDict = BlockDict(index: int, timestamp: string, proof: int, prevHash: string,
                                 transactions: seq<Entry>, hash: Option<string>)

  /** The code this model cannot see: SHA-256 over the sorted-key JSON of a block
      dictionary, and SHA-256 over the decimal text of an integer. Both give a
      hexadecimal digest. */
  datatype Oracle = Oracle(blockDigest: BlockDict -> string, powDigest: int -> string)

  /** The dictionary of a block as it currently is, hash key included. */
  function Dict(b: Block): BlockDict
  {
    BlockDict(b.index, b.timestamp, b.proof, b.prevHash, b.transactions, Some(b.hash))
  }

  /** The dictionary a block had at the moment its stored hash was computed by
      block creation: no transactions yet and no hash key. */
  function CreationDict(b: Block): BlockDict
  {
    BlockDict(b.index, b.timestamp, b.proof, b.prevHash, [], None)
  }

  /** The block creation builds: empty transactions, stored hash computed over
      the dictionary that does not yet hold a hash key. */
  function NewBlock(o: Oracle, index: int, timestamp: string, proof: int, prevHash: string): Block
  {
    Block(index, timestamp, proof, prevHash, [],
          o.blockDigest(BlockDict(index, timestamp, proof, prevHash, [], None)))
  }

  /** The difficulty target: four leading hexadecimal zeros. */
  const Target := "0000"

  /** `h[:4] == '0000'` with Python's slicing, which yields the whole string
      when it is shorter than four characters. */
  function MeetsDifficulty(h: string): (r: bool)
    ensures r <==> |h| >= 4 && h[..4] == Target
    ensures r ==> forall i :: 0 <= i < 4 ==> h[i] == '0'
  {
    (if |h| < 4 then h else h[..4]) == Target
  }

  /** `n` solves the puzzle relative to the previous proof `prev`: the digest of
      `n**2 - prev**2` meets the difficulty target. */
  predicate Solves(o: Oracle, prev: int, n: int)
  {
    MeetsDifficulty(o.powDigest(n * n - prev * prev))
  }

  /** Some positive proof solves the puzzle; exactly when the search terminates. */
  ghost predicate Solvable(o: Oracle, prev: int)
  {
    exists n :: n >= 1 && Solves(o, prev, n)
  }

  /** `n` is what the linear search from 1 finds: the least positive solution. */
  ghost predicate IsFirstSolution(o: Oracle, prev: int, n: int)
  {
    n >= 1 && Solves(o, prev, n) && forall m :: 1 <= m < n ==> !Solves(o, prev, m)
  }

  /** The two checks made on a consecutive pair: the link recomputed over the
      predecessor's current dictionary, and the proof-of-work relation. */
  predicate PairValid(o: Oracle, prev: Block, block: Block)
  {
    block.prevHash == o.blockDigest(Dict(prev)) && Solves(o, prev.proof, block.proof)
  }

  /** Every consecutive pair passes; the first block is never checked. */
  predicate ChainValid(o: Oracle, chain: seq<Block>)
  {
    forall i :: 1 <= i < |chain| ==> PairValid(o, chain[i - 1], chain[i])
  }

  /** Block i carries index i + 1. */
  predicate WellIndexed(chain: seq<Block>)
  {
    forall i :: 0 <= i < |chain| ==> chain[i].index == i + 1
  }

  /** A chain of one block is valid whatever that block holds. */
  lemma GenesisOnlyChainValid(o: Oracle, b: Block)
    ensures ChainValid(o, [b])
  {
  }

  /** Validity of a chain is decided pair by pair, so it survives dropping
      blocks from the end. */
  lemma ValidPrefix(o: Oracle, chain: seq<Block>, n: nat)
    requires ChainValid(o, chain)
    requires 1 <= n <= |chain|
    ensures ChainValid(o, chain[..n])
  {
  }

  /** The block digest never collides. */
  ghost predicate Injective(f: BlockDict -> string)
  {
    forall a, b :: f(a) == f(b) ==> a == b
  }

  /** If the block digest never collides, the digest of a block's current
      dictionary, which has a hash key, never equals the digest the block was
      given at creation, which had none. */
  lemma StoredHashNeverRecomputed(o: Oracle, b: Block)
    requires Injective(o.blockDigest)
    ensures o.blockDigest(Dict(b)) != o.blockDigest(CreationDict(b))
  {
  }

  class Blockchain {
    /** SHA-256 and JSON, fixed for the lifetime of the chain. */
    const digests: Oracle
    var chain: seq<Block>

    /** The chain is never empty and every block carries its 1-based position. */
    ghost predicate Valid()
      reads this
    {
      |chain| > 0 && WellIndexed(chain)
    }

    /** Builds the chain holding only the genesis block (proof 1, prev_hash "0");
        `now` is the creation timestamp. */
    constructor (digests: Oracle, now: string)
      ensures this.digests == digests
      ensures Valid()
      ensures |chain| == 1
      ensures chain[0].index == 1 && chain[0].proof == 1 && chain[0].prevHash == "0"
      ensures chain[0].transactions == [] && chain[0].timestamp == now
      ensures chain[0].hash == digests.blockDigest(CreationDict(chain[0]))
    {
      this.digests := digests;
      chain := [];
      new;
      var _ := CreateBlock(1, "0", now);
    }

    /** The digest of a block dictionary. */
    function Hash(d: BlockDict): string
    {
      digests.blockDigest(d)
    }

    /** Appends a block with the next index, the given proof and link, no
        transactions and a hash of its own dictionary taken before the hash key
        is added; returns it. */
    method CreateBlock(proof: int, prevHash: string, now: string) returns (b: Block)
      modifies this
      ensures chain == old(chain) + [b]
      ensures b.index == |old(chain)| + 1 && b.timestamp == now
      ensures b.proof == proof && b.prevHash == prevHash && b.transactions == []
      ensures b.hash == digests.blockDigest(CreationDict(b))
      ensures WellIndexed(old(chain)) ==> WellIndexed(chain)
    {
      var block := BlockDict(|chain| + 1, now, proof, prevHash, [], None);
      b := Block(block.index, block.timestamp, block.proof, block.prevHash,
                 block.transactions, Hash(block));
      chain := chain + [b];
    }

    /** The last block of the chain, which carries the largest index. */
    function LatestBlock(): (b: Block)
      reads this
      requires Valid()
      ensures b in chain && b.index == |chain|
      ensures forall i :: 0 <= i < |chain| ==> chain[i].index <= b.index
    {
      chain[|chain| - 1]
    }

    /** Linear search from 1 for the least proof whose puzzle digest meets the
        target. The search runs for ever when no proof solves the puzzle, so
        the model asks that one does. */
    method ProofWork(prevProof: int) returns (newProof: int)
      requires Solvable(digests, prevProof)
      ensures newProof >= 1 && Solves(digests, prevProof, newProof)
      ensures forall m :: 1 <= m < newProof ==> !Solves(digests, prevProof, m)
    {
      ghost var solution :| solution >= 1 && Solves(digests, prevProof, solution);
      newProof := 1;
      var checkProof := false;
      while !checkProof
        invariant 1 <= newProof <= solution
        invariant forall m :: 1 <= m < newProof ==> !Solves(digests, prevProof, m)
        invariant checkProof ==> Solves(digests, prevProof, newProof)
        decreases solution - newProof, if checkProof then 0 else 1
      {
        var hashOperation := digests.powDigest(newProof * newProof - prevProof * prevProof);
        if MeetsDifficulty(hashOperation) {
          checkProof := true;
        } else {
          newProof := newProof + 1;
        }
      }
    }

    /** Walks the consecutive pairs, recomputing each predecessor's digest over
        its current dictionary, and stops at the first failing pair. Reading
        `chain[0]` fails on an empty list, so the chain must have a block. */
    method ValidChain(chain: seq<Block>) returns (ok: bool)
      requires |chain| > 0
      ensures ok <==> ChainValid(digests, chain)
    {
      var prevBlock := chain[0];
      var blockIndex := 1;
      while blockIndex < |chain|
        invariant 1 <= blockIndex <= |chain|
        invariant prevBlock == chain[blockIndex - 1]
        invariant forall i :: 1 <= i < blockIndex ==> PairValid(digests, chain[i - 1], chain[i])
      {
        var block := chain[blockIndex];
        if block.prevHash != Hash(Dict(prevBlock)) {
          return false;
        }
        var prevProof := prevBlock.proof;
        var proof := block.proof;
        var hashOperation := digests.powDigest(proof * proof - prevProof * prevProof);
        if !MeetsDifficulty(hashOperation) {
          return false;
        }
        prevBlock := block;
        blockIndex := blockIndex + 1;
      }
      return true;
    }
  }
}
