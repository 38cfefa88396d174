/** What the output set and the nullifier set of the ledger hold, and what reorganisations, imports and
    spending twice within a block do to them. */
module LedgerSets {
  import opened Common
  import opened Blocks
  import Fees
  import opened Ledger
  import opened LedgerRuns

  // ------------------------------------------------------------- what the sets hold

  /** One of the first `n` outputs of `tx` is `output`, under the id `id`. */
  predicate TxCreates(c: Crypto, tx: Transaction, n: nat, id: Hash, output: Output)
    requires n <= |tx.outputs|
  {
    exists i: nat :: i < n && c.outputId(tx.hash, i) == id && tx.outputs[i] == output
  }

  predicate BlockCreates(c: Crypto, txs: seq<Transaction>, id: Hash, output: Output) {
    exists t: nat :: t < |txs| && TxCreates(c, txs[t], |txs[t].outputs|, id, output)
  }

  predicate ChainCreates(c: Crypto, blocks: seq<Block>, id: Hash, output: Output) {
    exists b: nat :: b < |blocks| && BlockCreates(c, blocks[b].txs, id, output)
  }

  lemma {:induction false} TxOrigin(c: Crypto, u: map<Hash, Output>, tx: Transaction, n: nat, id: Hash)
    requires n <= |tx.outputs| && id in AddOutputs(c, u, tx, n)
    ensures TxCreates(c, tx, n, id, AddOutputs(c, u, tx, n)[id]) || (id in u && AddOutputs(c, u, tx, n)[id] == u[id])
  {
    if n > 0 && id != c.outputId(tx.hash, n - 1) {
      TxOrigin(c, u, tx, n - 1, id);
    }
  }

  lemma {:induction false} BlockOrigin(c: Crypto, u: map<Hash, Output>, txs: seq<Transaction>, id: Hash)
    requires id in AddBlockOutputs(c, u, txs)
    ensures var output := AddBlockOutputs(c, u, txs)[id];
            BlockCreates(c, txs, id, output) || (id in u && output == u[id])
    decreases |txs|
  {
    if txs != [] {
      var front, tx := txs[..|txs| - 1], Last(txs);
      var before := AddBlockOutputs(c, u, front);
      TxOrigin(c, before, tx, |tx.outputs|, id);
      if id in before && AddBlockOutputs(c, u, txs)[id] == before[id] {
        BlockOrigin(c, u, front, id);
        if BlockCreates(c, front, id, before[id]) {
          var t: nat :| t < |front| && TxCreates(c, front[t], |front[t].outputs|, id, before[id]);
          assert txs[t] == front[t];
        }
      }
    }
  }

  /** Nothing is invented: an output in the set is one some block created, under the id of its
      transaction and position. */
  lemma {:induction false} UtxosAreCreated(c: Crypto, blocks: seq<Block>, id: Hash)
    requires id in RebuiltUtxos(c, blocks)
    ensures ChainCreates(c, blocks, id, RebuiltUtxos(c, blocks)[id])
    decreases |blocks|
  {
    if blocks != [] {
      var front, b := blocks[..|blocks| - 1], Last(blocks);
      var before := RebuiltUtxos(c, front);
      BlockOrigin(c, before, b.txs, id);
      if id in before && RebuiltUtxos(c, blocks)[id] == before[id] {
        UtxosAreCreated(c, front, id);
        var k: nat :| k < |front| && BlockCreates(c, front[k].txs, id, before[id]);
        assert blocks[k] == front[k];
      }
    }
  }

  lemma {:induction false} LatestInTx(c: Crypto, u: map<Hash, Output>, tx: Transaction, n: nat, i: nat)
    returns (i': nat)
    requires i < n <= |tx.outputs|
    ensures i <= i' < n && c.outputId(tx.hash, i') == c.outputId(tx.hash, i)
    ensures c.outputId(tx.hash, i) in AddOutputs(c, u, tx, n)
    ensures AddOutputs(c, u, tx, n)[c.outputId(tx.hash, i)] == tx.outputs[i']
  {
    if c.outputId(tx.hash, n - 1) == c.outputId(tx.hash, i) {
      i' := n - 1;
    } else {
      i' := LatestInTx(c, u, tx, n - 1, i);
    }
  }

  lemma {:induction false} TxKeeps(c: Crypto, u: map<Hash, Output>, tx: Transaction, n: nat, id: Hash)
    requires n <= |tx.outputs| && id in u
    ensures id in AddOutputs(c, u, tx, n)
  {
    if n > 0 {
      TxKeeps(c, u, tx, n - 1, id);
    }
  }

  /** A place in a block: transaction and output. */
  datatype Place = Place(t: nat, i: nat)

  predicate NotBefore(p: Place, q: Place) {
    p.t > q.t || (p.t == q.t && p.i >= q.i)
  }

  /** The block has an output with that id at that place. */
  predicate CreatesAt(c: Crypto, txs: seq<Transaction>, p: Place, id: Hash) {
    p.t < |txs| && p.i < |txs[p.t].outputs| && c.outputId(txs[p.t].hash, p.i) == id
  }

  function OutputAt(c: Crypto, txs: seq<Transaction>, p: Place, id: Hash): Output
    requires CreatesAt(c, txs, p, id)
  {
    txs[p.t].outputs[p.i]
  }

  lemma {:induction false} LatestInBlock(c: Crypto, u: map<Hash, Output>, txs: seq<Transaction>, p: Place, id: Hash)
    returns (p': Place)
    requires CreatesAt(c, txs, p, id)
    ensures NotBefore(p', p) && CreatesAt(c, txs, p', id)
    ensures id in AddBlockOutputs(c, u, txs) && AddBlockOutputs(c, u, txs)[id] == OutputAt(c, txs, p', id)
    decreases |txs|
  {
    var front, tx := txs[..|txs| - 1], Last(txs);
    var before := AddBlockOutputs(c, u, front);
    if i: nat :| i < |tx.outputs| && c.outputId(tx.hash, i) == id && (p.t < |front| || i >= p.i) {
      var i' := LatestInTx(c, before, tx, |tx.outputs|, i);
      p' := Place(|front|, i');
    } else {
      assert p.t < |front| && front[p.t] == txs[p.t];
      p' := LatestInBlock(c, u, front, p, id);
      TxKeeps(c, before, tx, |tx.outputs|, id);
      TxOrigin(c, before, tx, |tx.outputs|, id);
      assert txs[p'.t] == front[p'.t];
    }
  }

  lemma {:induction false} BlockKeeps(c: Crypto, u: map<Hash, Output>, txs: seq<Transaction>, id: Hash)
    requires id in u
    ensures id in AddBlockOutputs(c, u, txs)
    decreases |txs|
  {
    if txs != [] {
      BlockKeeps(c, u, txs[..|txs| - 1], id);
      TxKeeps(c, AddBlockOutputs(c, u, txs[..|txs| - 1]), Last(txs), |Last(txs).outputs|, id);
    }
  }

  /** Nothing is lost: every output of every block is in the set, spent or not, or a later output that
      has the same id is; so it is this very output when ids are not reused. */
  lemma {:induction false} CreatedAreUtxos(c: Crypto, blocks: seq<Block>, k: nat, p: Place, id: Hash)
    returns (k': nat, p': Place)
    requires k < |blocks| && CreatesAt(c, blocks[k].txs, p, id)
    ensures k <= k' < |blocks| && CreatesAt(c, blocks[k'].txs, p', id) && (k' == k ==> NotBefore(p', p))
    ensures id in RebuiltUtxos(c, blocks) && RebuiltUtxos(c, blocks)[id] == OutputAt(c, blocks[k'].txs, p', id)
    decreases |blocks|
  {
    var front, b := blocks[..|blocks| - 1], Last(blocks);
    var before := RebuiltUtxos(c, front);
    if k == |front| {
      p' := LatestInBlock(c, before, b.txs, p, id);
      k' := k;
    } else if q: Place :| CreatesAt(c, b.txs, q, id) {
      p' := LatestInBlock(c, before, b.txs, q, id);
      k' := |front|;
    } else {
      k', p' := CreatedAreUtxos(c, front, k, p, id);
      BlockKeeps(c, before, b.txs, id);
      BlockOrigin(c, before, b.txs, id);
      if BlockCreates(c, b.txs, id, RebuiltUtxos(c, blocks)[id]) {
        NoPlace(c, b.txs, id, RebuiltUtxos(c, blocks)[id]);
      }
    }
  }

  lemma {:induction false} NoPlace(c: Crypto, txs: seq<Transaction>, id: Hash, output: Output)
    requires BlockCreates(c, txs, id, output)
    ensures exists q: Place :: CreatesAt(c, txs, q, id)
  {
    var t: nat :| t < |txs| && TxCreates(c, txs[t], |txs[t].outputs|, id, output);
    var i: nat :| i < |txs[t].outputs| && c.outputId(txs[t].hash, i) == id && txs[t].outputs[i] == output;
    assert CreatesAt(c, txs, Place(t, i), id);
  }

  predicate BlockSpends(txs: seq<Transaction>, n: Hash) {
    exists t: nat, j: nat :: t < |txs| && j < |txs[t].inputs| && txs[t].inputs[j].nullifier == n
  }

  lemma {:induction false} BlockNullifiersAre(txs: seq<Transaction>, n: Hash)
    ensures n in BlockNullifiers(txs) <==> BlockSpends(txs, n)
    decreases |txs|
  {
    if txs != [] {
      var front := txs[..|txs| - 1];
      BlockNullifiersAre(front, n);
      if BlockSpends(front, n) {
        var t: nat, j: nat :| t < |front| && j < |front[t].inputs| && front[t].inputs[j].nullifier == n;
        assert txs[t] == front[t];
      }
      if BlockSpends(txs, n) && n !in Nullified(Last(txs)) {
        var t: nat, j: nat :| t < |txs| && j < |txs[t].inputs| && txs[t].inputs[j].nullifier == n;
        assert t < |front| && front[t] == txs[t];
      }
    }
  }

  /** The spent nullifiers are exactly those of the inputs of the blocks. */
  lemma {:induction false} NullifiersAreSpent(blocks: seq<Block>, n: Hash)
    ensures n in RebuiltNullifiers(blocks) <==> exists k: nat :: k < |blocks| && BlockSpends(blocks[k].txs, n)
    decreases |blocks|
  {
    if blocks != [] {
      var front := blocks[..|blocks| - 1];
      NullifiersAreSpent(front, n);
      BlockNullifiersAre(Last(blocks).txs, n);
      if n in RebuiltNullifiers(front) {
        var k: nat :| k < |front| && BlockSpends(front[k].txs, n);
        assert blocks[k] == front[k];
      }
      if k: nat :| k < |blocks| && BlockSpends(blocks[k].txs, n) {
        assert k == |front| || front[k] == blocks[k];
      }
    }
  }


  // ------------------------------------------------------------- sets of chains put together

  lemma {:induction false} TxMerge(c: Crypto, u: map<Hash, Output>, tx: Transaction, n: nat)
    requires n <= |tx.outputs|
    ensures AddOutputs(c, u, tx, n) == u + AddOutputs(c, map[], tx, n)
  {
    if n > 0 {
      TxMerge(c, u, tx, n - 1);
    }
  }

  lemma {:induction false} MergeAssociative(u: map<Hash, Output>, v: map<Hash, Output>, w: map<Hash, Output>)
    ensures (u + v) + w == u + (v + w)
  {}

  lemma {:induction false} BlockMerge(c: Crypto, u: map<Hash, Output>, txs: seq<Transaction>)
    ensures AddBlockOutputs(c, u, txs) == u + AddBlockOutputs(c, map[], txs)
    decreases |txs|
  {
    if txs != [] {
      var front, tx := txs[..|txs| - 1], Last(txs);
      BlockMerge(c, u, front);
      var m, w := AddBlockOutputs(c, map[], front), AddOutputs(c, map[], tx, |tx.outputs|);
      TxMerge(c, u + m, tx, |tx.outputs|);
      TxMerge(c, m, tx, |tx.outputs|);
      MergeAssociative(u, m, w);
    }
  }

  /** Both sets of two chains in a row are those of the first overridden or joined by those of the second. */
  lemma {:induction false} SetsAppend(c: Crypto, a: seq<Block>, b: seq<Block>)
    ensures RebuiltUtxos(c, a + b) == RebuiltUtxos(c, a) + RebuiltUtxos(c, b)
    ensures RebuiltNullifiers(a + b) == RebuiltNullifiers(a) + RebuiltNullifiers(b)
    decreases |b|
  {
    if b == [] {
      assert a + b == a;
    } else {
      var front, last := b[..|b| - 1], Last(b);
      SetsAppend(c, a, front);
      assert (a + b)[..|a + b| - 1] == a + front;
      BlockMerge(c, RebuiltUtxos(c, a + front), last.txs);
      BlockMerge(c, RebuiltUtxos(c, front), last.txs);
      MergeAssociative(RebuiltUtxos(c, a), RebuiltUtxos(c, front), AddBlockOutputs(c, map[], last.txs));
    }
  }

  /** `st'` is `st` with `added` committed on top. */
  predicate Grown(c: Crypto, st: Chain, st': Chain, added: seq<Block>) {
    && st'.blocks == st.blocks + added
    && st'.utxos == st.utxos + RebuiltUtxos(c, added)
    && st'.nullifiers == st.nullifiers + RebuiltNullifiers(added)
    && RebuiltNullifiers(added) !! st.nullifiers
    && (LinkedBlocks(st.blocks) ==> LinkedBlocks(st'.blocks))
  }

  lemma {:induction false} GrownByOne(c: Crypto, st: Chain, b: Block, v: Verdict)
    requires Admitted(c, st, b, v)
    ensures Grown(c, st, Commit(c, st, b, v), [b])
  {
    assert [b][..0] == [];
    assert RebuiltUtxos(c, [b]) == AddBlockOutputs(c, RebuiltUtxos(c, []), b.txs);
    assert RebuiltNullifiers([b]) == RebuiltNullifiers([]) + BlockNullifiers(b.txs);
    BlockMerge(c, st.utxos, b.txs);
  }

  lemma {:induction false} GrownTwice(c: Crypto, st: Chain, mid: Chain, st': Chain, a: seq<Block>, b: seq<Block>)
    requires Grown(c, st, mid, a) && Grown(c, mid, st', b)
    ensures Grown(c, st, st', a + b)
  {
    SetsAppend(c, a, b);
    MergeAssociative(st.utxos, RebuiltUtxos(c, a), RebuiltUtxos(c, b));
    BlocksAssociative(st.blocks, a, b);
    JoinedSpends(st.nullifiers, RebuiltNullifiers(a), RebuiltNullifiers(b));
  }

  lemma {:induction false} BlocksAssociative(a: seq<Block>, b: seq<Block>, c: seq<Block>)
    ensures (a + b) + c == a + (b + c)
  {}

  lemma {:induction false} JoinedSpends(s: set<Hash>, a: set<Hash>, b: set<Hash>)
    requires a !! s && b !! s + a
    ensures (s + a) + b == s + (a + b) && a + b !! s
  {}

  /** Adding blocks commits the first `n` of them, all if none fails. */
  lemma {:induction false} AddAllGrows(c: Crypto, st: Chain, blocks: seq<Block>, vs: seq<Verdict>) returns (n: nat)
    requires |blocks| == |vs|
    ensures n <= |blocks| && Grown(c, st, AddAll(c, st, blocks, vs), blocks[..n])
    ensures AddAllOk(c, st, blocks, vs) ==> n == |blocks|
    decreases |blocks|
  {
    n := 0;
    if blocks == [] || !Admitted(c, st, blocks[0], vs[0]) {
      GrownByNone(c, st);
      assert blocks[..n] == [];
    } else {
      var b, next := blocks[0], Commit(c, st, blocks[0], vs[0]);
      GrownByOne(c, st, b, vs[0]);
      if CommitOk(c, st, b, vs[0]) {
        var m := AddAllGrows(c, next, blocks[1..], vs[1..]);
        GrownTwice(c, st, next, AddAll(c, next, blocks[1..], vs[1..]), [b], blocks[1..][..m]);
        n := m + 1;
        assert blocks[..n] == [b] + blocks[1..][..m];
      } else {
        n := 1;
        assert blocks[..n] == [b];
      }
    }
  }

  lemma {:induction false} GrownByNone(c: Crypto, st: Chain)
    ensures Grown(c, st, st, [])
  {}

  // ------------------------------------------------------------- reorganisation and the sets

  lemma {:induction false} KeptIsPrefix(blocks: seq<Block>, target: nat)
    requires LinkedBlocks(blocks)
    ensures |KeepBelow(blocks, target)| <= |blocks|
    ensures KeepBelow(blocks, target) == blocks[..|KeepBelow(blocks, target)|]
    decreases |blocks|
  {
    if blocks != [] {
      if Last(blocks).header.height < target {
        KeepsAll(blocks, target);
      } else {
        KeptIsPrefix(blocks[..|blocks| - 1], target);
      }
    }
  }

  /** Every entry of `d` is overridden by `a`, or is in `k` as well. */
  predicate Covered(k: map<Hash, Output>, d: map<Hash, Output>, a: map<Hash, Output>) {
    forall id :: id in d && id !in a ==> id in k && k[id] == d[id]
  }

  /** Every output of the dropped blocks is overridden by an added one, or is a kept one as well. */
  predicate OutputsKept(c: Crypto, kept: seq<Block>, dropped: seq<Block>, added: seq<Block>) {
    Covered(RebuiltUtxos(c, kept), RebuiltUtxos(c, dropped), RebuiltUtxos(c, added))
  }

  /** The same for their ids only. */
  predicate IdsKept(c: Crypto, kept: seq<Block>, dropped: seq<Block>, added: seq<Block>) {
    RebuiltUtxos(c, dropped).Keys <= RebuiltUtxos(c, kept).Keys + RebuiltUtxos(c, added).Keys
  }

  /** Every nullifier the dropped blocks spent, the kept ones spent too. */
  predicate SpendsKept(kept: seq<Block>, dropped: seq<Block>) {
    RebuiltNullifiers(dropped) <= RebuiltNullifiers(kept)
  }

  /** A reorganisation of a consistent ledger replaces a suffix of the blocks by the new ones that could be
      added, but both sets keep what the dropped blocks put in. */
  lemma {:induction false} ReorgGrows(c: Crypto, st: Chain, target: nat, blocks: seq<Block>, vs: seq<Verdict>)
    returns (kept: seq<Block>, dropped: seq<Block>, added: seq<Block>)
    requires |blocks| == |vs| && Consistent(c, st) && ReorgAllowed(st, target, blocks)
    ensures kept == KeepBelow(st.blocks, target) && st.blocks == kept + dropped
    ensures var st' := Reorg(c, st, target, blocks, vs);
            && added <= blocks && st'.blocks == kept + added && LinkedBlocks(st'.blocks)
            && st'.utxos == st.utxos + RebuiltUtxos(c, added)
            && st'.nullifiers == st.nullifiers + RebuiltNullifiers(added)
            && RebuiltNullifiers(added) !! st.nullifiers
    ensures AddAllOk(c, st.(blocks := kept), blocks, vs) ==> added == blocks
  {
    KeptIsPrefix(st.blocks, target);
    kept := KeepBelow(st.blocks, target);
    dropped := st.blocks[|kept|..];
    assert LinkedBlocks(kept) by {
      assert forall i :: 0 < i < |kept| ==> Extends(st.blocks[i - 1], st.blocks[i]);
    }
    var n := AddAllGrows(c, st.(blocks := kept), blocks, vs);
    added := blocks[..n];
  }

  lemma {:induction false} SmallerSubset<T>(a: set<T>, b: set<T>)
    requires a < b
    ensures |a| < |b|
  {
    var rest := b - a;
    assert b == a + rest && a !! rest;
  }

  lemma {:induction false} SameSize<T>(a: set<T>, b: set<T>)
    requires a <= b
    ensures |a| == |b| <==> a == b
  {
    if a != b {
      SmallerSubset(a, b);
    }
  }

  /** `k`, `d` and `a` are the outputs of the kept, dropped and added blocks: what is left after the
      reorganisation against what would be rebuilt. */
  lemma {:induction false} StaleOutputs(k: map<Hash, Output>, d: map<Hash, Output>, a: map<Hash, Output>)
    ensures (k + d) + a == k + a <==> Covered(k, d, a)
  {
    var stale, rebuilt := (k + d) + a, k + a;
    if stale == rebuilt {
      forall id | id in d && id !in a ensures id in k && k[id] == d[id] {
        assert id in stale && stale[id] == d[id];
        assert id in rebuilt;
      }
    }
    if Covered(k, d, a) {
      forall id | id in stale ensures id in rebuilt && stale[id] == rebuilt[id] {
      }
      assert stale.Keys == rebuilt.Keys;
    }
  }

  lemma {:induction false} StaleIds(k: map<Hash, Output>, d: map<Hash, Output>, a: map<Hash, Output>)
    ensures |(k + d) + a| == |k + a| <==> d.Keys <= k.Keys + a.Keys
  {
    var stale, rebuilt := ((k + d) + a).Keys, (k + a).Keys;
    assert stale == k.Keys + d.Keys + a.Keys && rebuilt == k.Keys + a.Keys;
    SameSize(rebuilt, stale);
    assert |(k + d) + a| == |stale| && |k + a| == |rebuilt|;
  }

  lemma {:induction false} StaleNullifiers(k: set<Hash>, d: set<Hash>, a: set<Hash>)
    requires a !! k + d
    ensures (k + d) + a == k + a <==> d <= k
    ensures |(k + d) + a| == |k + a| <==> d <= k
  {
    SameSize(k + a, (k + d) + a);
    if (k + d) + a == k + a {
      forall n | n in d ensures n in k {
        assert n in k + a;
      }
    }
  }

  /** What a reorganisation of a consistent ledger leaves. Each set is still the rebuilt one exactly when the
      dropped blocks put nothing into it that the others do not; the integrity check passes exactly when no
      dropped id and no dropped nullifier is missing from the others. */
  lemma {:induction false} ReorgSets(c: Crypto, st: Chain, target: nat, blocks: seq<Block>, vs: seq<Verdict>)
    returns (kept: seq<Block>, dropped: seq<Block>, added: seq<Block>)
    requires |blocks| == |vs| && Consistent(c, st) && ReorgAllowed(st, target, blocks)
    ensures kept == KeepBelow(st.blocks, target) && st.blocks == kept + dropped
    ensures var st' := Reorg(c, st, target, blocks, vs);
            && added <= blocks && st'.blocks == kept + added
            && (AddAllOk(c, st.(blocks := kept), blocks, vs) ==> added == blocks)
            && st.utxos.Keys <= st'.utxos.Keys && st.nullifiers <= st'.nullifiers
            && (st'.utxos == RebuiltUtxos(c, st'.blocks) <==> OutputsKept(c, kept, dropped, added))
            && (st'.nullifiers == RebuiltNullifiers(st'.blocks) <==> SpendsKept(kept, dropped))
            && (Intact(c, st') <==> IdsKept(c, kept, dropped, added) && SpendsKept(kept, dropped))
            && (Consistent(c, st') <==> OutputsKept(c, kept, dropped, added) && SpendsKept(kept, dropped))
  {
    kept, dropped, added := ReorgGrows(c, st, target, blocks, vs);
    Settled(c, st, Reorg(c, st, target, blocks, vs), kept, dropped, added);
  }

  lemma {:induction false} Settled(c: Crypto, st: Chain, st': Chain,
                                   kept: seq<Block>, dropped: seq<Block>, added: seq<Block>)
    requires Consistent(c, st) && st.blocks == kept + dropped && st'.blocks == kept + added && LinkedBlocks(st'.blocks)
    requires st'.utxos == st.utxos + RebuiltUtxos(c, added)
    requires st'.nullifiers == st.nullifiers + RebuiltNullifiers(added) && RebuiltNullifiers(added) !! st.nullifiers
    ensures st'.utxos == RebuiltUtxos(c, st'.blocks) <==> OutputsKept(c, kept, dropped, added)
    ensures |st'.utxos| == |RebuiltUtxos(c, st'.blocks)| <==> IdsKept(c, kept, dropped, added)
    ensures st'.nullifiers == RebuiltNullifiers(st'.blocks) <==> SpendsKept(kept, dropped)
    ensures |st'.nullifiers| == |RebuiltNullifiers(st'.blocks)| <==> SpendsKept(kept, dropped)
  {
    SetsAppend(c, kept, dropped);
    SetsAppend(c, kept, added);
    var k, d, a := RebuiltUtxos(c, kept), RebuiltUtxos(c, dropped), RebuiltUtxos(c, added);
    assert st'.utxos == (k + d) + a && RebuiltUtxos(c, st'.blocks) == k + a;
    StaleOutputs(k, d, a);
    StaleIds(k, d, a);
    StaleNullifiers(RebuiltNullifiers(kept), RebuiltNullifiers(dropped), RebuiltNullifiers(added));
  }

  // ------------------------------------------------------------- the double-spend check

  /** A block with the given transactions that extends the chain and commits to them. */
  function NextBlock(c: Crypto, blocks: seq<Block>, txs: seq<Transaction>): Block {
    var previous := if blocks == [] then ZERO_HASH else Last(blocks).header.blockHash;
    var height := if blocks == [] then 0 else Last(blocks).header.height + 1;
    Block(Header(1, previous, BlockRoot(c.blake3, txs), 1, height, ZERO_HASH, ZERO_HASH, ZERO_HASH, ZERO_HASH), txs)
  }

  /** A transaction that spends the given nullifiers and does nothing else. */
  function Spending(inputs: seq<Input>): Transaction {
    Transaction(ZERO_HASH, inputs, [], 0, false, ZERO_HASH)
  }

  function Spend(n: Hash): Input {
    Input(ZERO_HASH, 0, n)
  }

  const AGREED: Verdict := Verdict(true, _ => true, map[], Fees.Unset, true)

  lemma {:induction false} SpendingBlock(c: Crypto, st: Chain, n: Hash, inputs: seq<Input>)
    requires inputs != [] && forall i :: 0 <= i < |inputs| ==> inputs[i] == Spend(n)
    ensures var b := NextBlock(c, st.blocks, [Spending(inputs)]);
            && BlockNullifiers(b.txs) == {n}
            && Verified(c, AGREED.txOk, Tip(st.blocks), b)
            && (Admitted(c, st, b, AGREED) <==> n !in st.nullifiers)
  {
    var tx := Spending(inputs);
    assert [tx][..0] == [];
    assert Nullified(tx) == {n} by {
      assert tx.inputs[0].nullifier == n;
    }
    assert BlockNullifiers([tx]) == BlockNullifiers([]) + Nullified(tx);
  }

  /** No block that can be admitted spends a nullifier of the chain. */
  ghost predicate NeverRespends(c: Crypto, st: Chain) {
    forall b, v :: Admitted(c, st, b, v) ==> BlockNullifiers(b.txs) !! RebuiltNullifiers(st.blocks)
  }

  /** Every block that passes the other checks and spends no nullifier of the chain can be admitted. */
  ghost predicate NeverWronglyRefuses(c: Crypto, st: Chain) {
    forall b: Block, v: Verdict ::
      v.gate && Verified(c, v.txOk, Tip(st.blocks), b) && BlockNullifiers(b.txs) !! RebuiltNullifiers(st.blocks) ==>
        Admitted(c, st, b, v)
  }

  /** The double-spend check is sound exactly when the set holds all of the chain's nullifiers, and complete
      exactly when it holds no others. */
  lemma {:induction false} DoubleSpendCheckExact(c: Crypto, st: Chain)
    ensures NeverRespends(c, st) <==> RebuiltNullifiers(st.blocks) <= st.nullifiers
    ensures NeverWronglyRefuses(c, st) <==> st.nullifiers <= RebuiltNullifiers(st.blocks)
  {
    var spent := RebuiltNullifiers(st.blocks);
    if !(spent <= st.nullifiers) {
      var n :| n in spent && n !in st.nullifiers;
      SpendingBlock(c, st, n, [Spend(n)]);
      var b := NextBlock(c, st.blocks, [Spending([Spend(n)])]);
      assert Admitted(c, st, b, AGREED) && n in BlockNullifiers(b.txs);
    }
    if !(st.nullifiers <= spent) {
      var n :| n in st.nullifiers && n !in spent;
      SpendingBlock(c, st, n, [Spend(n)]);
      var b := NextBlock(c, st.blocks, [Spending([Spend(n)])]);
      assert !Admitted(c, st, b, AGREED) && BlockNullifiers(b.txs) !! spent;
    }
  }

  /** After an allowed reorganisation of any ledger, blocks are never refused wrongly exactly when the kept
      blocks spent everything in the set; what only dropped blocks spent cannot be spent again. Nothing can
      be spent twice if the set held all of the chain's nullifiers before. */
  lemma {:induction false} ReorgDoubleSpends(c: Crypto, st: Chain, target: nat, blocks: seq<Block>, vs: seq<Verdict>)
    requires |blocks| == |vs| && ReorgAllowed(st, target, blocks)
    ensures NeverWronglyRefuses(c, Reorg(c, st, target, blocks, vs)) <==>
              st.nullifiers <= RebuiltNullifiers(KeepBelow(st.blocks, target))
    ensures AllSpentKnown(st) ==> NeverRespends(c, Reorg(c, st, target, blocks, vs))
  {
    var st' := Reorg(c, st, target, blocks, vs);
    var kept := KeepBelow(st.blocks, target);
    var n := AddAllGrows(c, st.(blocks := kept), blocks, vs);
    SetsAppend(c, kept, blocks[..n]);
    KeptSpends(st.blocks, target);
    SpentBeyond(st.nullifiers, RebuiltNullifiers(kept), RebuiltNullifiers(blocks[..n]));
    DoubleSpendCheckExact(c, st');
  }

  lemma {:induction false} SpentBeyond(known: set<Hash>, kept: set<Hash>, added: set<Hash>)
    requires added !! known
    ensures known + added <= kept + added <==> known <= kept
  {
    if known + added <= kept + added {
      forall n | n in known ensures n in kept {
        assert n in kept + added;
      }
    }
  }

  lemma {:induction false} KeptSpends(blocks: seq<Block>, target: nat)
    ensures RebuiltNullifiers(KeepBelow(blocks, target)) <= RebuiltNullifiers(blocks)
    decreases |blocks|
  {
    if blocks != [] {
      var front := blocks[..|blocks| - 1];
      KeptSpends(front, target);
      var kept := KeepBelow(front, target);
      assert (kept + [Last(blocks)])[..|kept|] == kept;
    }
  }

  // ------------------------------------------------------------- double spends over runs

  /** The set holds every nullifier of the chain. */
  predicate AllSpentKnown(st: Chain) {
    RebuiltNullifiers(st.blocks) <= st.nullifiers
  }

  /** No block spends a nullifier of a block before it. */
  predicate BlocksApart(blocks: seq<Block>) {
    blocks == []
    || (BlocksApart(blocks[..|blocks| - 1])
        && BlockNullifiers(Last(blocks).txs) !! RebuiltNullifiers(blocks[..|blocks| - 1]))
  }

  lemma {:induction false} ApartPairwise(blocks: seq<Block>, i: nat, j: nat)
    requires BlocksApart(blocks) && i < j < |blocks|
    ensures SpendApart(blocks, i, j)
    decreases |blocks|
  {
    var front := blocks[..|blocks| - 1];
    if j < |front| {
      ApartPairwise(front, i, j);
      assert SpendApart(front, i, j);
    } else {
      BlockNullifiersRebuilt(front, i);
    }
  }

  lemma {:induction false} KeptApart(blocks: seq<Block>, target: nat)
    requires BlocksApart(blocks)
    ensures BlocksApart(KeepBelow(blocks, target))
    decreases |blocks|
  {
    if blocks != [] {
      var front := blocks[..|blocks| - 1];
      KeptApart(front, target);
      KeptSpends(front, target);
      var kept := KeepBelow(front, target);
      assert (kept + [Last(blocks)])[..|kept|] == kept;
    }
  }

  /** The chain has spent nothing twice across blocks, and its spends are known. */
  predicate SpendsSafe(st: Chain) {
    AllSpentKnown(st) && BlocksApart(st.blocks)
  }

  lemma {:induction false} CommitSafe(c: Crypto, st: Chain, b: Block, v: Verdict)
    requires SpendsSafe(st)
    ensures SpendsSafe(Commit(c, st, b, v))
  {
    assert (st.blocks + [b])[..|st.blocks|] == st.blocks;
  }

  lemma {:induction false} AddAllSafe(c: Crypto, st: Chain, blocks: seq<Block>, vs: seq<Verdict>)
    requires |blocks| == |vs| && SpendsSafe(st)
    ensures SpendsSafe(AddAll(c, st, blocks, vs))
    decreases |blocks|
  {
    if blocks != [] {
      CommitSafe(c, st, blocks[0], vs[0]);
      if CommitOk(c, st, blocks[0], vs[0]) {
        AddAllSafe(c, Commit(c, st, blocks[0], vs[0]), blocks[1..], vs[1..]);
      }
    }
  }

  /** An import that is adopted has spent nothing twice across blocks, and nothing the ledger does not know. */
  predicate ImportSafe(st: Chain, op: Op) {
    op.MergeOp? && Adopts(st, op.import_) ==>
      BlocksApart(op.import_.value.blocks) && RebuiltNullifiers(op.import_.value.blocks) <= st.nullifiers
  }

  predicate ImportsSafe(c: Crypto, st: Chain, ops: seq<Op>)
    requires forall op :: op in ops ==> OpOk(op)
  {
    ops == []
    || (assert Last(ops) in ops && forall o :: o in ops[..|ops| - 1] ==> o in ops;
        ImportsSafe(c, st, ops[..|ops| - 1]) && ImportSafe(Run(c, st, ops[..|ops| - 1]), Last(ops)))
  }

  lemma {:induction false} StepSafe(c: Crypto, st: Chain, op: Op)
    requires OpOk(op) && SpendsSafe(st) && ImportSafe(st, op)
    ensures SpendsSafe(Step(c, st, op))
  {
    match op
    case CommitOp(b, v) => CommitSafe(c, st, b, v);
    case FinalizeOp =>
    case ReorgOp(t, bs, vs) =>
      KeptApart(st.blocks, t);
      KeptSpends(st.blocks, t);
      AddAllSafe(c, st.(blocks := KeepBelow(st.blocks, t)), bs, vs);
    case MergeOp(_) =>
  }

  /** Over every run of commits, finalizations and any number of reorganisations, also those failing midway,
      and without an adopted import unless it is safe itself: no admissible block spends a nullifier of the
      chain, and no two blocks of the chain have spent the same one. */
  lemma {:induction false} RunNeverRespends(c: Crypto, st: Chain, ops: seq<Op>)
    requires (forall op :: op in ops ==> OpOk(op)) && SpendsSafe(st) && ImportsSafe(c, st, ops)
    ensures SpendsSafe(Run(c, st, ops)) && NeverRespends(c, Run(c, st, ops))
    ensures forall i: nat, j: nat :: i < j < |Run(c, st, ops).blocks| ==> SpendApart(Run(c, st, ops).blocks, i, j)
  {
    RunSafe(c, st, ops);
    var st' := Run(c, st, ops);
    DoubleSpendCheckExact(c, st');
    forall i: nat, j: nat | i < j < |st'.blocks| ensures SpendApart(st'.blocks, i, j) {
      ApartPairwise(st'.blocks, i, j);
    }
  }

  lemma {:induction false} RunSafe(c: Crypto, st: Chain, ops: seq<Op>)
    requires (forall op :: op in ops ==> OpOk(op)) && SpendsSafe(st) && ImportsSafe(c, st, ops)
    ensures SpendsSafe(Run(c, st, ops))
    decreases |ops|
  {
    if ops != [] {
      var front := ops[..|ops| - 1];
      assert Last(ops) in ops && forall o :: o in front ==> o in ops;
      RunSafe(c, st, front);
      StepSafe(c, Run(c, st, front), Last(ops));
    }
  }

  /** A new ledger is safe. */
  lemma {:induction false} GenesisSafe(c: Crypto, genesis: Block, sov: Fees.Sov, finalityDepth: nat, maxReorgDepth: nat)
    ensures SpendsSafe(Genesis(c, genesis, sov, finalityDepth, maxReorgDepth))
  {
    assert [genesis][..0] == [];
    assert RebuiltNullifiers([genesis]) == RebuiltNullifiers([]) + BlockNullifiers(genesis.txs);
  }

  /** An adopted import replaces blocks and outputs but not the nullifiers. The ledger is consistent afterwards
      exactly when the import itself is and the nullifiers happen to be its own; the double-spend check is
      sound exactly when they include its own. */
  lemma {:induction false} MergeSets(c: Crypto, st: Chain, imported: Import)
    requires Adopts(st, Some(imported))
    ensures Consistent(c, Merge(st, Some(imported))) <==>
              && LinkedBlocks(imported.blocks) && imported.utxos == RebuiltUtxos(c, imported.blocks)
              && st.nullifiers == RebuiltNullifiers(imported.blocks)
    ensures NeverRespends(c, Merge(st, Some(imported))) <==> RebuiltNullifiers(imported.blocks) <= st.nullifiers
  {
    DoubleSpendCheckExact(c, Merge(st, Some(imported)));
  }

  // ------------------------------------------------------------- spending twice within a block

  /** The nullifiers of the first `n` inputs, in order and with repetitions. */
  function InputSpends(inputs: seq<Input>, n: nat): seq<Hash>
    requires n <= |inputs|
  {
    if n == 0 then [] else InputSpends(inputs, n - 1) + [inputs[n - 1].nullifier]
  }

  function BlockSpendList(txs: seq<Transaction>): seq<Hash> {
    if txs == [] then [] else BlockSpendList(txs[..|txs| - 1]) + InputSpends(Last(txs).inputs, |Last(txs).inputs|)
  }

  function ChainSpendList(blocks: seq<Block>): seq<Hash> {
    if blocks == [] then [] else ChainSpendList(blocks[..|blocks| - 1]) + BlockSpendList(Last(blocks).txs)
  }

  lemma {:induction false} InputSpendsAre(inputs: seq<Input>, n: nat, h: Hash)
    requires n <= |inputs|
    ensures h in InputSpends(inputs, n) <==> exists j :: 0 <= j < n && inputs[j].nullifier == h
  {
    if n > 0 {
      InputSpendsAre(inputs, n - 1, h);
    }
  }

  lemma {:induction false} BlockListIsSet(txs: seq<Transaction>, h: Hash)
    ensures h in BlockSpendList(txs) <==> h in BlockNullifiers(txs)
    decreases |txs|
  {
    if txs != [] {
      BlockListIsSet(txs[..|txs| - 1], h);
      InputSpendsAre(Last(txs).inputs, |Last(txs).inputs|, h);
    }
  }

  lemma {:induction false} ChainListIsSet(blocks: seq<Block>, h: Hash)
    ensures h in ChainSpendList(blocks) <==> h in RebuiltNullifiers(blocks)
    decreases |blocks|
  {
    if blocks != [] {
      ChainListIsSet(blocks[..|blocks| - 1], h);
      BlockListIsSet(Last(blocks).txs, h);
    }
  }

  lemma {:induction false} DistinctAppend(a: seq<Hash>, b: seq<Hash>)
    requires forall x :: x in a ==> x !in b
    ensures Distinct(a + b) <==> Distinct(a) && Distinct(b)
  {
    var s := a + b;
    if Distinct(s) {
      forall i, j | 0 <= i < j < |a| ensures a[i] != a[j] {
        assert s[i] != s[j];
      }
      forall i, j | 0 <= i < j < |b| ensures b[i] != b[j] {
        assert s[|a| + i] != s[|a| + j];
      }
    }
    if Distinct(a) && Distinct(b) {
      forall i, j | 0 <= i < j < |s| ensures s[i] != s[j] {
        if i < |a| <= j {
          assert s[i] in a && s[j] in b;
        }
      }
    }
  }

  /** No block spends a nullifier twice within itself. */
  predicate NoneRepeats(blocks: seq<Block>) {
    forall k :: 0 <= k < |blocks| ==> Distinct(BlockSpendList(blocks[k].txs))
  }

  lemma {:induction false} SpentOnceIff(blocks: seq<Block>)
    requires BlocksApart(blocks)
    ensures Distinct(ChainSpendList(blocks)) <==> NoneRepeats(blocks)
    decreases |blocks|
  {
    if blocks != [] {
      var front, b := blocks[..|blocks| - 1], Last(blocks);
      SpentOnceIff(front);
      forall x | x in ChainSpendList(front) ensures x !in BlockSpendList(b.txs) {
        ChainListIsSet(front, x);
        BlockListIsSet(b.txs, x);
      }
      DistinctAppend(ChainSpendList(front), BlockSpendList(b.txs));
      NoneRepeatsSnoc(front, b);
      assert blocks == front + [b];
    }
  }

  lemma {:induction false} NoneRepeatsSnoc(blocks: seq<Block>, b: Block)
    ensures NoneRepeats(blocks + [b]) <==> NoneRepeats(blocks) && Distinct(BlockSpendList(b.txs))
  {
    var s := blocks + [b];
    if NoneRepeats(s) {
      forall k | 0 <= k < |blocks| ensures Distinct(BlockSpendList(blocks[k].txs)) {
        assert s[k] == blocks[k];
      }
      assert s[|blocks|] == b;
    }
  }

  /** On every such run no nullifier is spent twice in the whole chain exactly when no block of it repeats one
      within itself. */
  lemma {:induction false} SpentOnce(c: Crypto, st: Chain, ops: seq<Op>)
    requires (forall op :: op in ops ==> OpOk(op)) && SpendsSafe(st) && ImportsSafe(c, st, ops)
    ensures Distinct(ChainSpendList(Run(c, st, ops).blocks)) <==> NoneRepeats(Run(c, st, ops).blocks)
  {
    RunSafe(c, st, ops);
    SpentOnceIff(Run(c, st, ops).blocks);
  }

  /** Such blocks are admitted: the check looks only at earlier blocks. */
  lemma {:induction false} RepeatAdmitted(c: Crypto, st: Chain, n: Hash) returns (b: Block)
    requires n !in st.nullifiers
    ensures Admitted(c, st, b, AGREED) && !Distinct(BlockSpendList(b.txs))
  {
    var inputs := [Spend(n), Spend(n)];
    SpendingBlock(c, st, n, inputs);
    b := NextBlock(c, st.blocks, [Spending(inputs)]);
    var tx := Spending(inputs);
    assert [tx][..0] == [];
    assert InputSpends(inputs, 1) == InputSpends(inputs, 0) + [n];
    assert InputSpends(inputs, 2) == InputSpends(inputs, 1) + [n];
    var list := BlockSpendList(b.txs);
    assert list == BlockSpendList([]) + InputSpends(tx.inputs, |tx.inputs|);
    assert list == [n, n] && list[0] == list[1];
  }

  // ------------------------------------------------------------- a witness

  /** A consistent ledger of genesis and one block holding `tx`, reorganised to an empty block: the integrity
      check passes afterwards exactly when `tx` had neither inputs nor outputs. */
  lemma {:induction false} ReorgWitness(c: Crypto, tx: Transaction) returns (st: Chain, fork: Block)
    ensures Consistent(c, st) && ReorgAllowed(st, 1, [fork])
    ensures Intact(c, Reorg(c, st, 1, [fork], [AGREED])) <==> tx.inputs == [] && tx.outputs == []
  {
    var genesis := NextBlock(c, [], []);
    var former := NextBlock(c, [genesis], [tx]);
    fork := NextBlock(c, [genesis], []);
    st := TwoBlocks(c, genesis, former);
    TwoBlocksOk(c, genesis, former, fork);
    var kept, dropped, added := ReorgSets(c, st, 1, [fork], [AGREED]);
    TwoBlocksSplit(genesis, former, dropped);
    NothingIn(c, [genesis]);
    NothingIn(c, added);
    OneTransaction(c, former, tx);
  }

  function TwoBlocks(c: Crypto, first: Block, second: Block): Chain {
    var blocks := [first, second];
    Chain(blocks, 1, RebuiltUtxos(c, blocks), RebuiltNullifiers(blocks), Fees.Sov(false, map[]), {}, 1, 1)
  }

  lemma {:induction false} TwoBlocksOk(c: Crypto, first: Block, second: Block, fork: Block)
    requires Extends(first, second) && fork.header.height == 1
    ensures Consistent(c, TwoBlocks(c, first, second)) && ReorgAllowed(TwoBlocks(c, first, second), 1, [fork])
  {}

  lemma {:induction false} TwoBlocksSplit(first: Block, second: Block, dropped: seq<Block>)
    requires first.header.height == 0 && second.header.height == 1
    requires [first, second] == KeepBelow([first, second], 1) + dropped
    ensures KeepBelow([first, second], 1) == [first] && dropped == [second]
  {
    assert [first, second][..1] == [first] && [first][..0] == [];
    assert KeepBelow([first], 1) == KeepBelow([], 1) + [first];
    assert [first, second][1..] == dropped;
  }

  /** Blocks without transactions leave both sets empty. */
  lemma {:induction false} NothingIn(c: Crypto, blocks: seq<Block>)
    requires forall b :: b in blocks ==> b.txs == []
    ensures RebuiltUtxos(c, blocks) == map[] && RebuiltNullifiers(blocks) == {}
    decreases |blocks|
  {
    if blocks != [] {
      assert Last(blocks) in blocks;
      NothingIn(c, blocks[..|blocks| - 1]);
    }
  }

  lemma {:induction false} OneTransaction(c: Crypto, b: Block, tx: Transaction)
    requires b.txs == [tx]
    ensures RebuiltNullifiers([b]) == {} <==> tx.inputs == []
    ensures RebuiltUtxos(c, [b]).Keys == {} <==> tx.outputs == []
  {
    assert [b][..0] == [] && [tx][..0] == [];
    assert RebuiltNullifiers([b]) == RebuiltNullifiers([]) + BlockNullifiers([tx]);
    assert BlockNullifiers([tx]) == BlockNullifiers([]) + Nullified(tx);
    if tx.inputs != [] {
      assert tx.inputs[0].nullifier in Nullified(tx);
    }
    assert RebuiltUtxos(c, [b]) == AddBlockOutputs(c, RebuiltUtxos(c, []), [tx]);
    assert AddBlockOutputs(c, map[], [tx]) == AddOutputs(c, AddBlockOutputs(c, map[], []), tx, |tx.outputs|);
    if tx.outputs != [] {
      var _ := LatestInTx(c, map[], tx, |tx.outputs|, 0);
    }
  }
}
