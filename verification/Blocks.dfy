/** Transactions, headers and blocks as the light client and the ledger see them. */
module Blocks {
  import opened Common
  import Merkle

  datatype Output = Output(commitment: Hash, note: Hash, recipient: Bytes)

  datatype Input = Input(previousOutput: Hash, outputIndex: nat, nullifier: Hash)

  /** A transaction with its hash, its fee, whether it executes a token contract, and its signer's key. */
  datatype Transaction = Transaction(
    hash: Hash, inputs: seq<Input>, outputs: seq<Output>, fee: nat, tokenContract: bool, signer: Hash)

  datatype Header = Header(
    version: nat, previousHash: Hash, dataHelixRoot: Hash, timestamp: nat, height: nat,
    verificationHelixRoot: Hash, stateRoot: Hash, bftQuorumRoot: Hash, blockHash: Hash)

  datatype Block = Block(header: Header, txs: seq<Transaction>)

  /** `hs` lists the hashes of the transactions in block order. */
  predicate HashesOf(txs: seq<Transaction>, hs: seq<Hash>) {
    |hs| == |txs| && forall i :: 0 <= i < |txs| ==> hs[i] == txs[i].hash
  }

  function TxHashes(txs: seq<Transaction>): (hs: seq<Hash>)
    ensures HashesOf(txs, hs)
  {
    if txs == [] then [] else TxHashes(txs[..|txs| - 1]) + [Last(txs).hash]
  }

  lemma {:induction false} HashesUnique(txs: seq<Transaction>, hs: seq<Hash>)
    requires HashesOf(txs, hs)
    ensures hs == TxHashes(txs)
  {}

  /** The top node of the recursive tree over the hashes; the zero hash for none. */
  function TopNode(blake3: Merkle.Hasher, hs: seq<Hash>): Hash {
    if hs == [] then ZERO_HASH else Merkle.Node(blake3, hs, Merkle.Depth(|hs|), 0)
  }

  /** The root of a block is the top of the tree over its transactions' hashes in block order. */
  lemma {:induction false} RootInBlockOrder(blake3: Merkle.Hasher, txs: seq<Transaction>, hs: seq<Hash>)
    requires HashesOf(txs, hs)
    ensures BlockRoot(blake3, txs) == TopNode(blake3, hs)
  {
    HashesUnique(txs, hs);
    if hs != [] {
      Merkle.RootIsTopNode(blake3, hs);
    }
  }

  /** The Merkle root of a list of transactions; the zero hash for none. */
  function BlockRoot(blake3: Merkle.Hasher, txs: seq<Transaction>): Hash {
    if txs == [] then ZERO_HASH else Merkle.Root(blake3, TxHashes(txs))
  }
}
