/** The chain ledger: the commit path without an executor, finality, reorganisation, the merge guard
    and the integrity check. */
module Ledger {
  import opened Common
  import opened Blocks
  import Fees
  import Merkle

  /** The hash functions of the ledger: Blake3, and `calculate_output_id`. */
  datatype Crypto = Crypto(blake3: Merkle.Hasher, outputId: (Hash, nat) -> Hash)

  /** What one commit learns from code outside this model: the admission gate run first, the verdict on
      each transaction, the signers' primary wallets and the treasury at the time, and whether the processing
      after the block is appended succeeds. */
  datatype Verdict = Verdict(
    gate: bool, txOk: Transaction -> bool, wallets: map<Hash, Hash>, treasury: Fees.Treasury, post: bool)

  datatype Chain = Chain(
    blocks: seq<Block>, height: nat, utxos: map<Hash, Output>, nullifiers: set<Hash>,
    sov: Fees.Sov, finalized: set<nat>, finalityDepth: nat, maxReorgDepth: nat)

  datatype Import = Import(blocks: seq<Block>, utxos: map<Hash, Output>, sov: Fees.Sov)

  // ------------------------------------------------------------- outputs and nullifiers

  function Nullified(tx: Transaction): set<Hash> {
    set j | 0 <= j < |tx.inputs| :: tx.inputs[j].nullifier
  }

  function BlockNullifiers(txs: seq<Transaction>): set<Hash> {
    if txs == [] then {} else BlockNullifiers(txs[..|txs| - 1]) + Nullified(Last(txs))
  }

  /** Adds the first `n` outputs of `tx`. */
  function AddOutputs(c: Crypto, u: map<Hash, Output>, tx: Transaction, n: nat): map<Hash, Output>
    requires n <= |tx.outputs|
  {
    if n == 0 then u else AddOutputs(c, u, tx, n - 1)[c.outputId(tx.hash, n - 1) := tx.outputs[n - 1]]
  }

  function AddBlockOutputs(c: Crypto, u: map<Hash, Output>, txs: seq<Transaction>): map<Hash, Output> {
    if txs == [] then u
    else AddOutputs(c, AddBlockOutputs(c, u, txs[..|txs| - 1]), Last(txs), |Last(txs).outputs|)
  }

  /** The output set and nullifier set rebuilt from all blocks. */
  function RebuiltUtxos(c: Crypto, blocks: seq<Block>): map<Hash, Output> {
    if blocks == [] then map[] else AddBlockOutputs(c, RebuiltUtxos(c, blocks[..|blocks| - 1]), Last(blocks).txs)
  }

  function RebuiltNullifiers(blocks: seq<Block>): set<Hash> {
    if blocks == [] then {} else RebuiltNullifiers(blocks[..|blocks| - 1]) + BlockNullifiers(Last(blocks).txs)
  }

  function Genesis(c: Crypto, genesis: Block, sov: Fees.Sov, finalityDepth: nat, maxReorgDepth: nat): Chain {
    Chain([genesis], 0, AddBlockOutputs(c, map[], genesis.txs), BlockNullifiers(genesis.txs),
          sov, {}, finalityDepth, maxReorgDepth)
  }

  // ------------------------------------------------------------- commit

  predicate Extends(prev: Block, b: Block) {
    b.header.previousHash == prev.header.blockHash && b.header.height == prev.header.height + 1
  }

  function Tip(blocks: seq<Block>): Option<Block> {
    if blocks == [] then None else Some(Last(blocks))
  }

  /** `verify_block` against the previous block, if there is one. */
  predicate Verified(c: Crypto, txOk: Transaction -> bool, previous: Option<Block>, b: Block) {
    && (previous.Some? ==> Extends(previous.value, b))
    && (forall i :: 0 <= i < |b.txs| ==> txOk(b.txs[i]))
    && BlockRoot(c.blake3, b.txs) == b.header.dataHelixRoot
  }

  /** Whether the block is appended. */
  predicate Admitted(c: Crypto, st: Chain, b: Block, v: Verdict) {
    v.gate && Verified(c, v.txOk, Tip(st.blocks), b) && BlockNullifiers(b.txs) !! st.nullifiers
  }

  function Appended(c: Crypto, st: Chain, b: Block, v: Verdict): Chain {
    st.(blocks := st.blocks + [b], height := st.height + 1,
        sov := Fees.Deducted(st.sov, v.wallets, v.treasury, b.txs),
        utxos := AddBlockOutputs(c, st.utxos, b.txs), nullifiers := st.nullifiers + BlockNullifiers(b.txs))
  }

  function Commit(c: Crypto, st: Chain, b: Block, v: Verdict): Chain {
    if Admitted(c, st, b, v) then Appended(c, st, b, v) else st
  }

  // ------------------------------------------------------------- finality

  /** The heights with at least `finalityDepth` confirmations by the height counter. */
  function Finalizable(st: Chain): set<nat> {
    if st.height < st.finalityDepth then {}
    else
      set i | 0 <= i < |st.blocks| && st.blocks[i].header.height <= st.height - st.finalityDepth
        :: st.blocks[i].header.height
  }

  /** How many of the first `n` blocks a finalization newly marks. */
  function NewlyFinal(st: Chain, n: nat): nat
    requires n <= |st.blocks|
  {
    if n == 0 then 0
    else
      var b := st.blocks[n - 1];
      NewlyFinal(st, n - 1) + if Deep(st, b) && b.header.height !in st.finalized then 1 else 0
  }

  predicate Deep(st: Chain, b: Block) {
    b.header.height + st.finalityDepth <= st.height
  }

  function Finalize(st: Chain): Chain {
    st.(finalized := st.finalized + Finalizable(st))
  }

  /** `can_reorg_to_height`: above every finalized height, and not too deep. */
  predicate CanReorg(st: Chain, target: nat) {
    && (forall f :: f in st.finalized ==> f < target)
    && SaturatingSub(st.height, target) <= st.maxReorgDepth
  }

  predicate LinkedBlocks(blocks: seq<Block>) {
    forall i :: 0 < i < |blocks| ==> Extends(blocks[i - 1], blocks[i])
  }

  /** The blocks below height `target`, in order. */
  function KeepBelow(blocks: seq<Block>, target: nat): seq<Block> {
    if blocks == [] then []
    else if Last(blocks).header.height < target then KeepBelow(blocks[..|blocks| - 1], target) + [Last(blocks)]
    else KeepBelow(blocks[..|blocks| - 1], target)
  }

  /** Whether adding the block returns without an error. */
  predicate CommitOk(c: Crypto, st: Chain, b: Block, v: Verdict) {
    Admitted(c, st, b, v) && v.post
  }

  /** Adds blocks in turn, stopping after the first that reports an error. */
  function AddAll(c: Crypto, st: Chain, blocks: seq<Block>, vs: seq<Verdict>): Chain
    requires |blocks| == |vs|
    decreases |blocks|
  {
    if blocks == [] then st
    else if !CommitOk(c, st, blocks[0], vs[0]) then Commit(c, st, blocks[0], vs[0])
    else AddAll(c, Commit(c, st, blocks[0], vs[0]), blocks[1..], vs[1..])
  }

  /** Whether all of them are added without an error. */
  predicate AddAllOk(c: Crypto, st: Chain, blocks: seq<Block>, vs: seq<Verdict>)
    requires |blocks| == |vs|
    decreases |blocks|
  {
    blocks == []
    || (CommitOk(c, st, blocks[0], vs[0]) && AddAllOk(c, Commit(c, st, blocks[0], vs[0]), blocks[1..], vs[1..]))
  }

  predicate ReorgAllowed(st: Chain, target: nat, blocks: seq<Block>) {
    CanReorg(st, target) && blocks != [] && blocks[0].header.height == target && LinkedBlocks(blocks)
  }

  /** Drops the blocks from `target` on, and nothing else, then adds the new ones. */
  function Reorg(c: Crypto, st: Chain, target: nat, blocks: seq<Block>, vs: seq<Verdict>): Chain
    requires |blocks| == |vs|
  {
    if !ReorgAllowed(st, target, blocks) then st
    else AddAll(c, st.(blocks := KeepBelow(st.blocks, target)), blocks, vs)
  }

  /** `evaluate_and_merge_chain`: an import is adopted only by an empty or genesis-only chain without
      finalized blocks. It brings no nullifiers along. */
  predicate Adopts(st: Chain, import_: Option<Import>) {
    && st.finalized == {} && import_.Some?
    && (st.blocks == [] || st.height == 0) && import_.value.blocks != []
  }

  function Merge(st: Chain, import_: Option<Import>): Chain {
    if Adopts(st, import_) then
      st.(blocks := import_.value.blocks, height := |import_.value.blocks| - 1,
          utxos := import_.value.utxos, sov := import_.value.sov)
    else st
  }

  datatype MergeResult = Refused | LocalKept | ImportedAdopted

  predicate AllVerified(c: Crypto, txOk: Transaction -> bool, blocks: seq<Block>) {
    forall i: nat :: i < |blocks| ==> VerifiedAt(c, txOk, blocks, i)
  }

  predicate VerifiedAt(c: Crypto, txOk: Transaction -> bool, blocks: seq<Block>, i: nat)
    requires i < |blocks|
  {
    Verified(c, txOk, if i == 0 then None else Some(blocks[i - 1]), blocks[i])
  }

  /** What is reported. A chain beyond genesis verifies the import and then keeps its own, as the chain
      evaluator always does. */
  function MergeOutcome(c: Crypto, txOk: Transaction -> bool, st: Chain, import_: Option<Import>): MergeResult {
    if Adopts(st, import_) then ImportedAdopted
    else if st.finalized != {} || import_ == None then Refused
    else if st.blocks == [] || st.height == 0 then LocalKept
    else if AllVerified(c, txOk, import_.value.blocks) then LocalKept
    else Refused
  }

  // ------------------------------------------------------------- the ledger object

  class Blockchain {
    var blocks: seq<Block>
    var height: nat
    var utxos: map<Hash, Output>
    var nullifiers: set<Hash>
    var finalized: set<nat>
    const token: Fees.SovToken
    const finalityDepth: nat
    const maxReorgDepth: nat

    ghost function View(): Chain
      reads this, token
    {
      Chain(blocks, height, utxos, nullifiers, token.View(), finalized, finalityDepth, maxReorgDepth)
    }

    /** Starts from a genesis block, whose outputs and nullifiers count. */
    constructor (c: Crypto, genesis: Block, token: Fees.SovToken, finalityDepth: nat, maxReorgDepth: nat)
      ensures this.token == token && View() == Genesis(c, genesis, token.View(), finalityDepth, maxReorgDepth)
    {
      blocks, height, utxos, nullifiers, finalized := [genesis], 0, map[], {}, {};
      this.token, this.finalityDepth, this.maxReorgDepth := token, finalityDepth, maxReorgDepth;
      new;
      UpdateUtxoSet(c, genesis.txs);
    }

    method VerifyBlock(c: Crypto, txOk: Transaction -> bool, previous: Option<Block>, b: Block) returns (ok: bool)
      ensures ok == Verified(c, txOk, previous, b)
      ensures forall hs: seq<Hash> :: HashesOf(b.txs, hs) ==>
                (ok <==> (previous.Some? ==> b.header.previousHash == previous.value.header.blockHash
                                             && b.header.height == previous.value.header.height + 1)
                         && (forall i :: 0 <= i < |b.txs| ==> txOk(b.txs[i]))
                         && TopNode(c.blake3, hs) == b.header.dataHelixRoot)
    {
      forall hs: seq<Hash> | HashesOf(b.txs, hs) ensures BlockRoot(c.blake3, b.txs) == TopNode(c.blake3, hs) {
        RootInBlockOrder(c.blake3, b.txs, hs);
      }
      if previous.Some? && !Extends(previous.value, b) {
        return false;
      }
      for i := 0 to |b.txs|
        invariant forall j :: 0 <= j < i ==> txOk(b.txs[j])
      {
        if !txOk(b.txs[i]) {
          return false;
        }
      }
      var root := Merkle.ComputeMerkleRoot(c.blake3, TxHashes(b.txs));
      ok := root == b.header.dataHelixRoot;
    }

    /** Looks for a nullifier already spent by an earlier block. */
    method DoubleSpends(txs: seq<Transaction>) returns (found: bool)
      ensures found <==> !(BlockNullifiers(txs) !! nullifiers)
    {
      for i := 0 to |txs|
        invariant BlockNullifiers(txs[..i]) !! nullifiers
      {
        for j := 0 to |txs[i].inputs|
          invariant forall k :: 0 <= k < j ==> txs[i].inputs[k].nullifier !in nullifiers
        {
          if txs[i].inputs[j].nullifier in nullifiers {
            NullifierInBlock(txs, i, j);
            return true;
          }
        }
        assert txs[..i + 1][..i] == txs[..i];
        assert Nullified(txs[i]) !! nullifiers;
      }
      assert txs[..|txs|] == txs;
      found := false;
    }

    method UpdateUtxoSet(c: Crypto, txs: seq<Transaction>)
      modifies `utxos, `nullifiers
      ensures utxos == AddBlockOutputs(c, old(utxos), txs)
      ensures nullifiers == old(nullifiers) + BlockNullifiers(txs)
    {
      utxos, nullifiers := ApplyBlock(c, utxos, nullifiers, txs);
    }

    method ProcessAndCommitBlock(c: Crypto, b: Block, v: Verdict) returns (ok: bool)
      modifies `blocks, `height, `utxos, `nullifiers, token
      ensures View() == Commit(c, old(View()), b, v)
      ensures ok == CommitOk(c, old(View()), b, v)
      ensures |blocks| > |old(blocks)| <==>
                && v.gate && Verified(c, v.txOk, Tip(old(blocks)), b)
                && forall t, j :: 0 <= t < |b.txs| && 0 <= j < |b.txs[t].inputs| ==>
                     b.txs[t].inputs[j].nullifier !in old(nullifiers)
      ensures ok <==> |blocks| > |old(blocks)| && v.post
      ensures |blocks| > |old(blocks)| ==>
                && blocks == old(blocks) + [b] && height == old(height) + 1
                && utxos == AddBlockOutputs(c, old(utxos), b.txs)
                && nullifiers == old(nullifiers) + BlockNullifiers(b.txs)
                && token.View() == Fees.Deducted(old(token.View()), v.wallets, v.treasury, b.txs)
    {
      SpendsOf(b.txs, nullifiers);
      if !v.gate {
        return false;
      }
      var verified := VerifyBlock(c, v.txOk, Tip(blocks), b);
      if !verified {
        return false;
      }
      var doubleSpent := DoubleSpends(b.txs);
      if doubleSpent {
        return false;
      }
      var _ := token.DeductTransactionFees(v.wallets, v.treasury, b.txs);
      blocks := blocks + [b];
      height := height + 1;
      UpdateUtxoSet(c, b.txs);
      ok := v.post;
    }

    /** Marks every block deep enough below the height counter, and counts those not marked before. */
    method FinalizeBlocks() returns (count: nat)
      modifies `finalized
      ensures View() == Finalize(old(View()))
      ensures count == NewlyFinal(old(View()), |blocks|)
    {
      count := 0;
      if height < finalityDepth {
        NoneDeep(View(), |blocks|);
        return;
      }
      ghost var start := View();
      var already := finalized;
      for i := 0 to |blocks|
        invariant finalized == already
                  + set j | 0 <= j < i && blocks[j].header.height <= height - finalityDepth :: blocks[j].header.height
        invariant count == NewlyFinal(start, i)
      {
        if blocks[i].header.height <= height - finalityDepth && blocks[i].header.height !in already {
          finalized := finalized + {blocks[i].header.height};
          count := count + 1;
        }
      }
    }

    method ReorgToFork(c: Crypto, target: nat, newBlocks: seq<Block>, vs: seq<Verdict>) returns (r: Option<nat>)
      requires |newBlocks| == |vs|
      modifies `blocks, `height, `utxos, `nullifiers, token
      ensures View() == Reorg(c, old(View()), target, newBlocks, vs)
      ensures r.Some? <==> ReorgAllowed(old(View()), target, newBlocks)
                           && AddAllOk(c, old(View()).(blocks := KeepBelow(old(blocks), target)), newBlocks, vs)
      ensures r.Some? ==> r.value == |old(blocks)| - |KeepBelow(old(blocks), target)|
      ensures ReorgAllowed(old(View()), target, newBlocks) <==>
                && (forall f :: f in finalized ==> f < target)
                && old(height) <= target + maxReorgDepth
                && newBlocks != [] && newBlocks[0].header.height == target
                && forall i :: 0 < i < |newBlocks| ==>
                     && newBlocks[i].header.height == newBlocks[i - 1].header.height + 1
                     && newBlocks[i].header.previousHash == newBlocks[i - 1].header.blockHash
      ensures !ReorgAllowed(old(View()), target, newBlocks) ==> View() == old(View())
    {
      if !(forall f :: f in finalized ==> f < target) || SaturatingSub(height, target) > maxReorgDepth {
        return None;
      }
      if newBlocks == [] || newBlocks[0].header.height != target || !LinkedBlocks(newBlocks) {
        return None;
      }
      KeepBelowLength(blocks, target);
      var removed := |blocks| - |KeepBelow(blocks, target)|;
      blocks := KeepBelow(blocks, target);
      ghost var start := View();
      for i := 0 to |newBlocks|
        invariant AddAll(c, start, newBlocks, vs) == AddAll(c, View(), newBlocks[i..], vs[i..])
        invariant AddAllOk(c, start, newBlocks, vs) == AddAllOk(c, View(), newBlocks[i..], vs[i..])
      {
        assert newBlocks[i..][1..] == newBlocks[i + 1..] && vs[i..][1..] == vs[i + 1..];
        var ok := ProcessAndCommitBlock(c, newBlocks[i], vs[i]);
        if !ok {
          return None;
        }
      }
      return Some(removed);
    }

    /** Verifies a chain block by block. */
    method VerifyAll(c: Crypto, txOk: Transaction -> bool, chain: seq<Block>) returns (ok: bool)
      ensures ok == AllVerified(c, txOk, chain)
    {
      for i := 0 to |chain|
        invariant forall j: nat :: j < i ==> VerifiedAt(c, txOk, chain, j)
      {
        var verified := VerifyBlock(c, txOk, if i == 0 then None else Some(chain[i - 1]), chain[i]);
        if !verified {
          assert !VerifiedAt(c, txOk, chain, i);
          return false;
        }
      }
      ok := true;
    }

    method EvaluateAndMergeChain(c: Crypto, txOk: Transaction -> bool, import_: Option<Import>) returns (r: MergeResult)
      modifies `blocks, `height, `utxos, token
      ensures View() == Merge(old(View()), import_)
      ensures r == MergeOutcome(c, txOk, old(View()), import_)
      ensures r == ImportedAdopted <==>
                && finalized == {} && import_.Some? && import_.value.blocks != []
                && (old(blocks) == [] || old(height) == 0)
      ensures r == ImportedAdopted ==>
                && blocks == import_.value.blocks && height + 1 == |blocks| && utxos == import_.value.utxos
                && token.View() == import_.value.sov
      ensures r != ImportedAdopted ==> View() == old(View())
    {
      if finalized != {} || import_ == None {
        return Refused;
      }
      var imported := import_.value;
      if blocks == [] || height == 0 {
        if imported.blocks == [] {
          return LocalKept;
        }
        blocks, height, utxos := imported.blocks, |imported.blocks| - 1, imported.utxos;
        token.deployed, token.balances := imported.sov.deployed, imported.sov.balances;
        return ImportedAdopted;
      }
      var ok := VerifyAll(c, txOk, imported.blocks);
      r := if ok then LocalKept else Refused;
    }

    /** Checks linkage, then rebuilds both sets and compares their sizes. */
    method VerifyIntegrity(c: Crypto) returns (ok: bool)
      ensures ok == Intact(c, View())
      ensures ok <==>
                && (forall i :: 0 < i < |blocks| ==>
                      && blocks[i].header.previousHash == blocks[i - 1].header.blockHash
                      && blocks[i].header.height == blocks[i - 1].header.height + 1)
                && |RebuiltUtxos(c, blocks)| == |utxos| && |RebuiltNullifiers(blocks)| == |nullifiers|
    {
      var i := 1;
      while i < |blocks|
        invariant i >= 1
        invariant forall j :: 0 < j < i && j < |blocks| ==> Extends(blocks[j - 1], blocks[j])
      {
        if !Extends(blocks[i - 1], blocks[i]) {
          return false;
        }
        i := i + 1;
      }
      var u, n := Rebuild(c, blocks);
      ok := |u| == |utxos| && |n| == |nullifiers|;
    }
  }

  predicate Intact(c: Crypto, st: Chain) {
    && LinkedBlocks(st.blocks)
    && |RebuiltUtxos(c, st.blocks)| == |st.utxos|
    && |RebuiltNullifiers(st.blocks)| == |st.nullifiers|
  }

  method Rebuild(c: Crypto, blocks: seq<Block>) returns (u: map<Hash, Output>, n: set<Hash>)
    ensures u == RebuiltUtxos(c, blocks) && n == RebuiltNullifiers(blocks)
  {
    u, n := map[], {};
    for i := 0 to |blocks|
      invariant u == RebuiltUtxos(c, blocks[..i]) && n == RebuiltNullifiers(blocks[..i])
    {
      assert blocks[..i + 1][..i] == blocks[..i];
      u, n := ApplyBlock(c, u, n, blocks[i].txs);
    }
    assert blocks[..|blocks|] == blocks;
  }

  /** The loop shared by the commit and the rebuild: nullifiers first, then outputs, per transaction. */
  method ApplyBlock(c: Crypto, u0: map<Hash, Output>, n0: set<Hash>, txs: seq<Transaction>)
    returns (u: map<Hash, Output>, n: set<Hash>)
    ensures u == AddBlockOutputs(c, u0, txs) && n == n0 + BlockNullifiers(txs)
  {
    u, n := u0, n0;
    for i := 0 to |txs|
      invariant u == AddBlockOutputs(c, u0, txs[..i]) && n == n0 + BlockNullifiers(txs[..i])
    {
      var tx := txs[i];
      assert txs[..i + 1][..i] == txs[..i];
      ghost var before, spent := u, n;
      for j := 0 to |tx.inputs|
        invariant n == spent + set k | 0 <= k < j :: tx.inputs[k].nullifier
      {
        n := n + {tx.inputs[j].nullifier};
      }
      for j := 0 to |tx.outputs|
        invariant u == AddOutputs(c, before, tx, j)
      {
        u := u[c.outputId(tx.hash, j) := tx.outputs[j]];
      }
    }
    assert txs[..|txs|] == txs;
  }

  /** A block spends none of `spent` exactly when no input of it does. */
  lemma {:induction false} SpendsOf(txs: seq<Transaction>, spent: set<Hash>)
    ensures BlockNullifiers(txs) !! spent <==>
              forall t, j :: 0 <= t < |txs| && 0 <= j < |txs[t].inputs| ==> txs[t].inputs[j].nullifier !in spent
    decreases |txs|
  {
    if txs != [] {
      var front := txs[..|txs| - 1];
      SpendsOf(front, spent);
      assert forall t :: 0 <= t < |front| ==> front[t] == txs[t];
    }
  }

  lemma {:induction false} NullifierInBlock(txs: seq<Transaction>, i: nat, j: nat)
    requires i < |txs| && j < |txs[i].inputs|
    ensures txs[i].inputs[j].nullifier in BlockNullifiers(txs)
    decreases |txs|
  {
    if i < |txs| - 1 {
      NullifierInBlock(txs[..|txs| - 1], i, j);
    }
  }

  lemma {:induction false} NoneDeep(st: Chain, n: nat)
    requires st.height < st.finalityDepth && n <= |st.blocks|
    ensures NewlyFinal(st, n) == 0
  {
    if n > 0 {
      NoneDeep(st, n - 1);
    }
  }

  lemma {:induction false} KeepBelowLength(blocks: seq<Block>, target: nat)
    ensures |KeepBelow(blocks, target)| <= |blocks|
    decreases |blocks|
  {
    if blocks != [] {
      KeepBelowLength(blocks[..|blocks| - 1], target);
    }
  }
}
