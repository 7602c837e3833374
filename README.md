# Proof-of-work ledger, modelled in Dafny

This project models a small blockchain demonstrator: an append-only ledger whose
blocks are linked by hashes and mined with a proof-of-work puzzle, a
transaction intake that batches transfers into the latest block, and a
tampering operation that corrupts one block so that validation can be
exercised.

- `ledger.dfy`, module `Ledger`: the block record and the dictionary that is
  hashed (its `hash` key is absent while a block is built and present
  afterwards), the foreign digests as an `Oracle` value, the difficulty test
  on a digest, the puzzle, and the validity of a chain as predicates. The class
  `Blockchain` holds the chain as a sequence field. Its methods are the
  constructor (genesis block), `CreateBlock`, `ProofWork` (a linear search
  proved to return the least solution) and `ValidChain` (a loop proved to
  return true exactly when every consecutive pair passes both checks).
- `intake.dfy`, module `Intake`: `AddTransaction` and `CorruptBlockchain`,
  the two free functions that change a `Blockchain` from outside. Each is
  specified by a function on the chain (`ChainAfterAdd`, `CorruptAt`).
  The `Honest` invariant describes the chains that construction and
  intake produce; `AddTransaction` preserves it. Lemmas say what
  validation sees after intake and after corruption.

Three behaviours of the code are easy to misread, and the model keeps them as
written:

- Validation recomputes the predecessor's digest over its current dictionary.
  That dictionary contains the `hash` key and every transaction appended since
  creation. The link stored in the next block is the digest taken at creation,
  before either existed. So unless the digest collides, validation rejects
  every chain of two or more blocks that intake builds. `HonestChainRejected`
  and `ThreeTransfersScenario` prove this. A description of this ledger that
  calls such a chain valid, or that has validation compare the stored hash
  field, does not match the code.
- When the latest block already holds two transactions, a new block is mined.
  The incoming transaction still goes to the block that was latest on entry,
  because that block was read once. So every block but the last ends with three
  transactions, and the new block stays empty. `ChainAfterAdd` and `Honest`
  state this. A description that puts the transaction in the new block does
  not match the code.
- Corruption recomputes the block's stored hash over its dictionary with the
  new transactions and with the old `hash` key still in it.

## Model

| member | source | states |
|---|---|---|
| `Ledger.Blockchain.constructor` | Blockchainv3.py:15-19 | the new chain holds exactly one block: index 1, proof 1, link "0", no transactions, stored hash the digest of its dictionary without a hash key |
| `Ledger.Blockchain.CreateBlock` | Blockchainv3.py:22-32 | the chain grows by exactly the returned block at the end, with index old length + 1, the given proof and link, empty transactions and a stored hash equal to the digest of its dictionary without a hash key; earlier blocks are unchanged and indices stay positional |
| `Ledger.Blockchain.LatestBlock` | Blockchainv3.py:35-36 | the block returned is in the chain and carries the largest index, equal to the chain length |
| `Ledger.MeetsDifficulty` | Blockchainv3.py:45-47 | the Python prefix test passes exactly when the digest has at least four characters and the first four are '0'; shorter digests never pass |
| `Ledger.Blockchain.ProofWork` | Blockchainv3.py:38-52 | the result is at least 1 and solves the puzzle against the previous proof, and no integer in [1, result) does: it is the least solution |
| `Ledger.Blockchain.ValidChain` | Blockchainv3.py:61-76 | true exactly when, for every i from 1 to length - 1, block i's link equals the digest of block i-1's current dictionary (hash key included) and the puzzle digest of proof_i² − proof_{i-1}² meets the target; the chain is a value and is not changed |
| `Ledger.GenesisOnlyChainValid` | Blockchainv3.py:62-64 | the first block is never checked, so a one-block chain is valid whatever it holds |
| `Ledger.ValidPrefix` | Blockchainv3.py:61-76 | validity is decided pair by pair, so every non-empty prefix of a valid chain is valid |
| `Ledger.StoredHashNeverRecomputed` | Blockchainv3.py:66 | with a collision-free digest, the digest that validation recomputes over a block's current dictionary never equals the digest stored at creation |
| `Intake.ChainAfterAdd` | Blockchainv3.py:80-85 | a block is appended exactly when the latest block holds two or more transactions, with the next index, the given proof, the latest block's stored hash as link and no transactions; the latest block on entry gains the transaction and nothing else of it changes; earlier blocks are unchanged |
| `Intake.AddTransaction` | Blockchainv3.py:80-85 | the new chain is `ChainAfterAdd` of the old one; after a rollover the new block's proof is the least solution against the latest block's proof; positional indices and the `Honest` invariant are preserved |
| `Intake.GenesisHonest` | Blockchainv3.py:15-32 | the freshly built one-block chain satisfies the `Honest` invariant |
| `Intake.AddTransactionKeepsHonest` | Blockchainv3.py:80-85 | intake preserves the `Honest` invariant: stored links, creation hashes, least proofs, three transactions in every block but the last and at most two in the last |
| `Intake.HonestChainRejected` | Blockchainv3.py:61-76 | with a collision-free digest, every chain that satisfies the `Honest` invariant and has two or more blocks is invalid |
| `Intake.CorruptAt` | Blockchainv3.py:92-94 | corrupting position k keeps the length and every other block; block k keeps index, timestamp, proof and link, holds only the tamper marker, and its stored hash becomes the digest of its dictionary with the marker and the old hash key |
| `Intake.CorruptBlockchain` | Blockchainv3.py:88-94 | an index at or past the end is reported and changes nothing; one below minus the length raises IndexError and changes nothing; otherwise the chain becomes `CorruptAt` of the resolved position, negative indices counting from the end |
| `Intake.CorruptOnlyAffectsNextPair` | Blockchainv3.py:92-94 | corrupting block k changes the verdict of no consecutive pair except (k, k+1) |
| `Intake.CorruptLastBlockUndetected` | Blockchainv3.py:88-94 | corrupting the last block never changes whether the chain is valid |
| `Intake.CorruptDetectedBySuccessor` | Blockchainv3.py:88-94 | with a collision-free digest, corrupting a block that has a successor makes a valid chain invalid, unless the block already held exactly the tamper marker |
| `Intake.ThreeTransfersScenario` | Blockchainv3.py:80-85 | three transfers into a fresh chain give two blocks: the first holds all three entries, the second is empty and linked to the first's stored hash with the least proof; with a collision-free digest validation reports the chain compromised |

## Left out

- The interactive menu and all console input and output (Blockchainv3.py:98-133). The "Invalid block index." message becomes the `InvalidBlockIndex` outcome of `CorruptBlockchain`.
- SHA-256, `json.dumps(..., sort_keys=True)` and `str(int).encode()` are foreign code. They are two function-valued fields of `Oracle`: a digest of a block dictionary and a digest of an integer. The model does not say that both use the same SHA-256 function, or that the hex digests are 64 characters long.
- `datetime.datetime.now()` is not modelled: the timestamp is a `now` parameter of the constructor, `CreateBlock` and `AddTransaction`.
- Ledger.Blockchain.ProofWork: requires that some proof of at least 1 solves the puzzle. The Python loop runs for ever when none does, and the model does not describe that run.
- Aliasing of block dictionaries: blocks are values. `create_block` and `get_prev_block` return a reference into the chain, while the model returns a copy. `AddTransaction` writes its append back to the position it read on entry, which is how the reference behaves. No caller in the program keeps a returned block, so nothing observable is lost.
- `vars(transaction)` returns the transaction's live attribute dictionary, while the model stores a snapshot. Nothing changes a transaction after it is submitted.
- Ledger.Blockchain.ValidChain: requires a non-empty chain. Python raises IndexError on `chain[0]` for an empty list, and the program only ever passes its own non-empty chain.
- Intake.AddTransaction: requires the `Valid` invariant (a non-empty, positionally indexed chain). An empty chain makes `chain[-1]` raise, and a `Blockchain` is never empty.
- Python's IndexError for a corrupt index below minus the chain length would end the program. The model returns the `IndexErrorRaised` outcome instead.
