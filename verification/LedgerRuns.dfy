/** What the ledger keeps over every run of commits, finalizations, reorganisations and merges. */
module LedgerRuns {
  import opened Common
  import opened Blocks
  import Fees
  import opened Ledger
  import opened Sums

  datatype Op =
    | CommitOp(block: Block, verdict: Verdict)
    | FinalizeOp
    | ReorgOp(target: nat, blocks: seq<Block>, verdicts: seq<Verdict>)
    | MergeOp(import_: Option<Import>)

  predicate OpOk(op: Op) {
    op.ReorgOp? ==> |op.blocks| == |op.verdicts|
  }

  function Step(c: Crypto, st: Chain, op: Op): Chain
    requires OpOk(op)
  {
    match op
    case CommitOp(b, v) => Commit(c, st, b, v)
    case FinalizeOp => Finalize(st)
    case ReorgOp(t, bs, vs) => Reorg(c, st, t, bs, vs)
    case MergeOp(i) => Merge(st, i)
  }

  function Run(c: Crypto, st: Chain, ops: seq<Op>): Chain
    requires forall op :: op in ops ==> OpOk(op)
  {
    if ops == [] then st else Step(c, Run(c, st, ops[..|ops| - 1]), Last(ops))
  }

  // ------------------------------------------------------------- finality

  /** The first block of the given height, as the ledger looks it up. */
  function FindBlock(blocks: seq<Block>, height: nat): Option<Block> {
    if blocks == [] then None
    else
      match FindBlock(blocks[..|blocks| - 1], height)
      case Some(b) => Some(b)
      case None => if Last(blocks).header.height == height then Some(Last(blocks)) else None
  }

  /** Every finalized height has a block. */
  predicate FinalizedPresent(st: Chain) {
    forall f :: f in st.finalized ==> FindBlock(st.blocks, f).Some?
  }

  /** `st'` still finalizes what `st` does, with the same blocks. */
  predicate KeepsFinalized(st: Chain, st': Chain) {
    && st.finalized <= st'.finalized
    && forall f :: f in st.finalized ==> FindBlock(st'.blocks, f) == FindBlock(st.blocks, f)
  }

  lemma {:induction false} FindBelow(blocks: seq<Block>, target: nat, height: nat)
    requires height < target
    ensures FindBlock(KeepBelow(blocks, target), height) == FindBlock(blocks, height)
    decreases |blocks|
  {
    if blocks != [] {
      var front := blocks[..|blocks| - 1];
      FindBelow(front, target, height);
      var kept := KeepBelow(front, target);
      assert (kept + [Last(blocks)])[..|kept|] == kept;
    }
  }

  lemma {:induction false} FindPresent(blocks: seq<Block>, i: nat)
    requires i < |blocks|
    ensures FindBlock(blocks, blocks[i].header.height).Some?
    decreases |blocks|
  {
    if i < |blocks| - 1 {
      FindPresent(blocks[..|blocks| - 1], i);
    }
  }

  lemma {:induction false} CommitKeeps(c: Crypto, st: Chain, b: Block, v: Verdict)
    requires FinalizedPresent(st)
    ensures FinalizedPresent(Commit(c, st, b, v)) && KeepsFinalized(st, Commit(c, st, b, v))
    ensures Commit(c, st, b, v).finalized == st.finalized
  {
    assert (st.blocks + [b])[..|st.blocks|] == st.blocks;
  }

  lemma {:induction false} FinalizeKeeps(st: Chain)
    requires FinalizedPresent(st)
    ensures FinalizedPresent(Finalize(st)) && KeepsFinalized(st, Finalize(st))
  {
    forall f | f in Finalizable(st) ensures FindBlock(st.blocks, f).Some? {
      var i :| 0 <= i < |st.blocks| && st.blocks[i].header.height == f;
      FindPresent(st.blocks, i);
    }
  }

  lemma {:induction false} AddAllKeeps(c: Crypto, st: Chain, blocks: seq<Block>, vs: seq<Verdict>)
    requires |blocks| == |vs| && FinalizedPresent(st)
    ensures FinalizedPresent(AddAll(c, st, blocks, vs)) && KeepsFinalized(st, AddAll(c, st, blocks, vs))
    ensures AddAll(c, st, blocks, vs).finalized == st.finalized
    decreases |blocks|
  {
    if blocks != [] {
      var next := Commit(c, st, blocks[0], vs[0]);
      CommitKeeps(c, st, blocks[0], vs[0]);
      if CommitOk(c, st, blocks[0], vs[0]) {
        AddAllKeeps(c, next, blocks[1..], vs[1..]);
      }
    }
  }

  lemma {:induction false} ReorgKeeps(c: Crypto, st: Chain, target: nat, blocks: seq<Block>, vs: seq<Verdict>)
    requires |blocks| == |vs| && FinalizedPresent(st)
    ensures FinalizedPresent(Reorg(c, st, target, blocks, vs)) && KeepsFinalized(st, Reorg(c, st, target, blocks, vs))
  {
    if ReorgAllowed(st, target, blocks) {
      var cut := st.(blocks := KeepBelow(st.blocks, target));
      forall f | f in st.finalized ensures FindBlock(cut.blocks, f) == FindBlock(st.blocks, f) {
        FindBelow(st.blocks, target, f);
      }
      AddAllKeeps(c, cut, blocks, vs);
    }
  }

  lemma {:induction false} StepKeeps(c: Crypto, st: Chain, op: Op)
    requires OpOk(op) && FinalizedPresent(st)
    ensures FinalizedPresent(Step(c, st, op)) && KeepsFinalized(st, Step(c, st, op))
  {
    match op
    case CommitOp(b, v) => CommitKeeps(c, st, b, v);
    case FinalizeOp => FinalizeKeeps(st);
    case ReorgOp(t, bs, vs) => ReorgKeeps(c, st, t, bs, vs);
    case MergeOp(_) =>
  }

  /** Finality is safe: under any interleaving of operations, including reorganisations that fail
      midway and imports of arbitrary chains, a finalized height stays finalized and the block found
      there never changes. */
  lemma {:induction false} RunKeepsFinalized(c: Crypto, st: Chain, ops: seq<Op>)
    requires (forall op :: op in ops ==> OpOk(op)) && FinalizedPresent(st)
    ensures FinalizedPresent(Run(c, st, ops)) && KeepsFinalized(st, Run(c, st, ops))
  {
    if ops != [] {
      var front := ops[..|ops| - 1];
      assert Last(ops) in ops && forall op :: op in front ==> op in ops;
      RunKeepsFinalized(c, st, front);
      StepKeeps(c, Run(c, st, front), Last(ops));
    }
  }

  // ------------------------------------------------------------- incremental sets

  /** Both sets are what the blocks rebuild to, and the blocks are linked. */
  predicate Consistent(c: Crypto, st: Chain) {
    && LinkedBlocks(st.blocks)
    && st.utxos == RebuiltUtxos(c, st.blocks)
    && st.nullifiers == RebuiltNullifiers(st.blocks)
  }

  ghost predicate CommitsOnly(ops: seq<Op>) {
    forall op :: op in ops ==> op.CommitOp? || op.FinalizeOp?
  }

  /** A new ledger is consistent. */
  lemma {:induction false} GenesisConsistent(c: Crypto, genesis: Block, sov: Fees.Sov,
                                             finalityDepth: nat, maxReorgDepth: nat)
    ensures Consistent(c, Genesis(c, genesis, sov, finalityDepth, maxReorgDepth))
    ensures FinalizedPresent(Genesis(c, genesis, sov, finalityDepth, maxReorgDepth))
  {
    assert [genesis][..0] == [];
    assert RebuiltUtxos(c, [genesis]) == AddBlockOutputs(c, RebuiltUtxos(c, []), genesis.txs);
  }

  lemma {:induction false} CommitConsistent(c: Crypto, st: Chain, b: Block, v: Verdict)
    requires Consistent(c, st)
    ensures Consistent(c, Commit(c, st, b, v))
  {
    assert (st.blocks + [b])[..|st.blocks|] == st.blocks;
  }

  /** A block's nullifiers all count as spent once it is in the chain. */
  lemma {:induction false} BlockNullifiersRebuilt(blocks: seq<Block>, i: nat)
    requires i < |blocks|
    ensures BlockNullifiers(blocks[i].txs) <= RebuiltNullifiers(blocks)
    decreases |blocks|
  {
    if i < |blocks| - 1 {
      BlockNullifiersRebuilt(blocks[..|blocks| - 1], i);
    }
  }

  /** Blocks `i` and `j` spend different nullifiers. */
  predicate SpendApart(blocks: seq<Block>, i: nat, j: nat)
    requires i < |blocks| && j < |blocks|
  {
    BlockNullifiers(blocks[i].txs) !! BlockNullifiers(blocks[j].txs)
  }

  /** On a run of commits from a consistent ledger the sets maintained block by block equal the sets
      rebuilt from all blocks, so the integrity check passes; the chain only grows; and every block
      committed on the run spends no nullifier of any block before it. */
  lemma {:induction false} CommitsStayConsistent(c: Crypto, st: Chain, ops: seq<Op>)
    requires CommitsOnly(ops) && Consistent(c, st)
    ensures forall op :: op in ops ==> OpOk(op)
    ensures Consistent(c, Run(c, st, ops)) && Intact(c, Run(c, st, ops))
    ensures st.blocks <= Run(c, st, ops).blocks
    ensures forall i: nat, j: nat :: i < j && |st.blocks| <= j < |Run(c, st, ops).blocks|
              ==> SpendApart(Run(c, st, ops).blocks, i, j)
  {
    if ops != [] {
      var front, op := ops[..|ops| - 1], Last(ops);
      assert op in ops && forall o :: o in front ==> o in ops;
      CommitsStayConsistent(c, st, front);
      var mid := Run(c, st, front);
      if op.CommitOp? {
        CommitStep(c, mid, op.block, op.verdict, |st.blocks|);
      }
    }
  }

  lemma {:induction false} CommitStep(c: Crypto, st: Chain, b: Block, v: Verdict, from: nat)
    requires Consistent(c, st)
    requires forall i: nat, j: nat :: i < j && from <= j < |st.blocks| ==> SpendApart(st.blocks, i, j)
    ensures Consistent(c, Commit(c, st, b, v)) && st.blocks <= Commit(c, st, b, v).blocks
    ensures forall i: nat, j: nat :: i < j && from <= j < |Commit(c, st, b, v).blocks|
              ==> SpendApart(Commit(c, st, b, v).blocks, i, j)
  {
    CommitConsistent(c, st, b, v);
    var st' := Commit(c, st, b, v);
    forall i: nat, j: nat | i < j && from <= j < |st'.blocks| ensures SpendApart(st'.blocks, i, j) {
      if j < |st.blocks| {
        assert SpendApart(st.blocks, i, j);
      } else {
        BlockNullifiersRebuilt(st.blocks, i);
      }
    }
  }

  // ------------------------------------------------------------- the height counter

  /** How far the height counter runs ahead of the newest block. */
  function Ahead(st: Chain): int
    requires st.blocks != []
  {
    st.height - Last(st.blocks).header.height
  }

  lemma {:induction false} CommitAhead(c: Crypto, st: Chain, b: Block, v: Verdict)
    requires st.blocks != []
    ensures Commit(c, st, b, v).blocks != [] && Ahead(Commit(c, st, b, v)) == Ahead(st)
  {}

  lemma {:induction false} AddAllAhead(c: Crypto, st: Chain, blocks: seq<Block>, vs: seq<Verdict>)
    requires |blocks| == |vs| && st.blocks != []
    ensures AddAll(c, st, blocks, vs).blocks != [] && Ahead(AddAll(c, st, blocks, vs)) == Ahead(st)
    decreases |blocks|
  {
    if blocks != [] {
      CommitAhead(c, st, blocks[0], vs[0]);
      if CommitOk(c, st, blocks[0], vs[0]) {
        AddAllAhead(c, Commit(c, st, blocks[0], vs[0]), blocks[1..], vs[1..]);
      }
    }
  }

  lemma {:induction false} KeepBelowOfLinked(blocks: seq<Block>, target: nat)
    requires LinkedBlocks(blocks) && blocks != [] && blocks[0].header.height < target <= Last(blocks).header.height + 1
    ensures KeepBelow(blocks, target) != []
    ensures Last(KeepBelow(blocks, target)).header.height == target - 1
    ensures |KeepBelow(blocks, target)| == target - blocks[0].header.height
    decreases |blocks|
  {
    if Last(blocks).header.height >= target {
      var front := blocks[..|blocks| - 1];
      assert Extends(blocks[|blocks| - 2], blocks[|blocks| - 1]);
      KeepBelowOfLinked(front, target);
    } else {
      LinkedHeights(blocks, |blocks| - 1);
      KeepsAll(blocks, target);
    }
  }

  /** Linked blocks have consecutive heights. */
  lemma {:induction false} LinkedHeights(blocks: seq<Block>, i: nat)
    requires LinkedBlocks(blocks) && i < |blocks|
    ensures blocks[i].header.height == blocks[0].header.height + i
  {
    if i > 0 {
      LinkedHeights(blocks, i - 1);
      assert Extends(blocks[i - 1], blocks[i]);
    }
  }

  lemma {:induction false} KeepsAll(blocks: seq<Block>, target: nat)
    requires LinkedBlocks(blocks) && blocks != [] && Last(blocks).header.height < target
    ensures KeepBelow(blocks, target) == blocks
    decreases |blocks|
  {
    if |blocks| > 1 {
      assert Extends(blocks[|blocks| - 2], blocks[|blocks| - 1]);
      KeepsAll(blocks[..|blocks| - 1], target);
    }
  }

  /** A reorganisation leaves the height counter ahead by exactly the number of blocks it dropped. */
  lemma {:induction false} ReorgAhead(c: Crypto, st: Chain, target: nat, blocks: seq<Block>, vs: seq<Verdict>)
    requires |blocks| == |vs| && ReorgAllowed(st, target, blocks)
    requires LinkedBlocks(st.blocks) && st.blocks != []
    requires st.blocks[0].header.height < target <= Last(st.blocks).header.height + 1
    ensures Reorg(c, st, target, blocks, vs).blocks != []
    ensures Ahead(Reorg(c, st, target, blocks, vs)) == Ahead(st) + (Last(st.blocks).header.height + 1 - target)
  {
    KeepBelowOfLinked(st.blocks, target);
    AddAllAhead(c, st.(blocks := KeepBelow(st.blocks, target)), blocks, vs);
  }

  /** An allowed reorganisation drops at most one block more than the configured depth, and fewer when
      the height counter already runs ahead. */
  lemma {:induction false} ReorgDropsFew(st: Chain, target: nat)
    requires CanReorg(st, target) && LinkedBlocks(st.blocks) && st.blocks != []
    requires st.blocks[0].header.height < target <= Last(st.blocks).header.height + 1
    ensures |st.blocks| - |KeepBelow(st.blocks, target)| <= st.maxReorgDepth + 1 - Ahead(st)
  {
    KeepBelowOfLinked(st.blocks, target);
    LinkedHeights(st.blocks, |st.blocks| - 1);
  }

  /** A height is finalized next exactly when it has a block with `finalityDepth` blocks above it, less
      what the counter is ahead. */
  lemma {:induction false} FinalizedDepth(st: Chain, f: nat)
    requires st.blocks != []
    ensures f in Finalizable(st) <==>
              FindBlock(st.blocks, f).Some? && f + st.finalityDepth <= Last(st.blocks).header.height + Ahead(st)
  {
    if f in Finalizable(st) {
      var i :| 0 <= i < |st.blocks| && st.blocks[i].header.height == f;
      FindPresent(st.blocks, i);
    }
    if FindBlock(st.blocks, f).Some? {
      var i := FindIndex(st.blocks, f);
      assert f + st.finalityDepth <= st.height ==> f in Finalizable(st);
    }
  }

  predicate DistinctHeights(blocks: seq<Block>) {
    forall i, j :: 0 <= i < j < |blocks| ==> blocks[i].header.height != blocks[j].header.height
  }

  /** The heights of the deep ones among the first `n` blocks. */
  function DeepHeights(st: Chain, n: nat): set<nat>
    requires n <= |st.blocks|
  {
    if n == 0 then {}
    else DeepHeights(st, n - 1) + if Deep(st, st.blocks[n - 1]) then {st.blocks[n - 1].header.height} else {}
  }

  lemma {:induction false} DeepHeightsAre(st: Chain, n: nat, h: nat)
    requires n <= |st.blocks|
    ensures h in DeepHeights(st, n) <==>
              exists i :: 0 <= i < n && Deep(st, st.blocks[i]) && st.blocks[i].header.height == h
  {
    if n > 0 {
      DeepHeightsAre(st, n - 1, h);
    }
  }

  lemma {:induction false} HeightIsNew(st: Chain, n: nat)
    requires DistinctHeights(st.blocks) && n < |st.blocks|
    ensures st.blocks[n].header.height !in DeepHeights(st, n)
  {
    DeepHeightsAre(st, n, st.blocks[n].header.height);
  }

  lemma {:induction false} NewlyFinalCounts(st: Chain, n: nat)
    requires DistinctHeights(st.blocks) && n <= |st.blocks|
    ensures |st.finalized + DeepHeights(st, n)| == |st.finalized| + NewlyFinal(st, n)
  {
    if n == 0 {
      assert st.finalized + {} == st.finalized;
    } else {
      var b := st.blocks[n - 1];
      NewlyFinalCounts(st, n - 1);
      HeightIsNew(st, n - 1);
      CountOneMore(st.finalized, DeepHeights(st, n - 1), DeepHeights(st, n), b.header.height, Deep(st, b),
                   NewlyFinal(st, n - 1), NewlyFinal(st, n));
    }
  }

  lemma {:induction false} CountOneMore(f: set<nat>, d: set<nat>, d': set<nat>, h: nat, more: bool, n: nat, n': nat)
    requires h !in d && |f + d| == |f| + n
    requires d' == d + if more then {h} else {}
    requires n' == n + if more && h !in f then 1 else 0
    ensures |f + d'| == |f| + n'
  {
    JoinOneMore(f, d, h, more);
  }

  lemma {:induction false} JoinOneMore(f: set<nat>, d: set<nat>, h: nat, more: bool)
    requires h !in d
    ensures |f + (d + if more then {h} else {})| == |f + d| + if more && h !in f then 1 else 0
  {
    if more && h !in f {
      assert f + (d + {h}) == (f + d) + {h};
    } else if more {
      assert f + (d + {h}) == f + d;
    } else {
      assert f + (d + {}) == f + d;
    }
  }

  /** The number a finalization reports is the number of heights it adds, when no two blocks share one. */
  lemma {:induction false} FinalizationCounts(st: Chain)
    requires DistinctHeights(st.blocks)
    ensures |Finalize(st).finalized| == |st.finalized| + NewlyFinal(st, |st.blocks|)
  {
    NewlyFinalCounts(st, |st.blocks|);
    forall h: nat ensures h in DeepHeights(st, |st.blocks|) <==> h in Finalizable(st) {
      DeepHeightsAre(st, |st.blocks|, h);
    }
    assert DeepHeights(st, |st.blocks|) == Finalizable(st);
  }

  lemma {:induction false} FindIndex(blocks: seq<Block>, height: nat) returns (i: nat)
    requires FindBlock(blocks, height).Some?
    ensures i < |blocks| && blocks[i].header.height == height && FindBlock(blocks, height) == Some(blocks[i])
    ensures forall j :: 0 <= j < i ==> blocks[j].header.height != height
    decreases |blocks|
  {
    var front := blocks[..|blocks| - 1];
    if FindBlock(front, height).Some? {
      i := FindIndex(front, height);
    } else {
      i := |front|;
      forall j | 0 <= j < i ensures blocks[j].header.height != height {
        if blocks[j].header.height == height {
          FindPresent(front, j);
        }
      }
    }
  }

  /** Every finalized height has at least `finalityDepth` blocks above it. */
  predicate DeeplyFinalized(st: Chain) {
    && st.blocks != [] && Ahead(st) == 0
    && forall f :: f in st.finalized ==> f + st.finalityDepth <= Last(st.blocks).header.height
  }

  /** Without reorganisations or imports, a height is finalized only once that many blocks lie on it. */
  lemma {:induction false} CommitsFinalizeDeeply(c: Crypto, st: Chain, ops: seq<Op>)
    requires CommitsOnly(ops) && DeeplyFinalized(st)
    ensures forall op :: op in ops ==> OpOk(op)
    ensures DeeplyFinalized(Run(c, st, ops)) && Run(c, st, ops).finalityDepth == st.finalityDepth
  {
    if ops != [] {
      var front, op := ops[..|ops| - 1], Last(ops);
      assert op in ops && forall o :: o in front ==> o in ops;
      CommitsFinalizeDeeply(c, st, front);
      var mid := Run(c, st, front);
      if op.CommitOp? {
        CommitAhead(c, mid, op.block, op.verdict);
      } else {
        forall f | f in Finalizable(mid) ensures f + mid.finalityDepth <= Last(mid.blocks).header.height {
          FinalizedDepth(mid, f);
        }
      }
    }
  }

  // ------------------------------------------------------------- fees over runs

  /** There is a treasury, and the block's fees fit 64 bits. */
  predicate FeesFit(b: Block, v: Verdict) {
    v.treasury.Wallet? && Fees.BlockFees(b.txs, |b.txs|) <= U64_MAX
  }

  predicate AllFeesFit(blocks: seq<Block>, vs: seq<Verdict>)
    requires |blocks| == |vs|
  {
    forall i :: 0 <= i < |blocks| ==> FeesFit(blocks[i], vs[i])
  }

  predicate ChargesOnly(op: Op) {
    match op
    case CommitOp(b, v) => FeesFit(b, v)
    case FinalizeOp => true
    case ReorgOp(_, bs, vs) => |bs| == |vs| && AllFeesFit(bs, vs)
    case MergeOp(i) => i == None
  }

  lemma {:induction false} CommitSupply(c: Crypto, st: Chain, b: Block, v: Verdict)
    requires Total(st.sov.balances) <= U128_MAX && FeesFit(b, v)
    ensures Total(Commit(c, st, b, v).sov.balances) == Total(st.sov.balances)
  {
    Fees.DeductConserves(st.sov, v.wallets, v.treasury, b.txs);
  }

  lemma {:induction false} AddAllSupply(c: Crypto, st: Chain, blocks: seq<Block>, vs: seq<Verdict>)
    requires |blocks| == |vs| && Total(st.sov.balances) <= U128_MAX && AllFeesFit(blocks, vs)
    ensures Total(AddAll(c, st, blocks, vs).sov.balances) == Total(st.sov.balances)
    decreases |blocks|
  {
    if blocks != [] {
      CommitSupply(c, st, blocks[0], vs[0]);
      if CommitOk(c, st, blocks[0], vs[0]) {
        AddAllSupply(c, Commit(c, st, blocks[0], vs[0]), blocks[1..], vs[1..]);
      }
    }
  }

  /** However blocks are committed, refused, finalized and reorganised, charging their fees neither creates
      nor destroys SOV. */
  lemma {:induction false} RunConservesSupply(c: Crypto, st: Chain, ops: seq<Op>)
    requires Total(st.sov.balances) <= U128_MAX && forall op :: op in ops ==> ChargesOnly(op)
    ensures forall op :: op in ops ==> OpOk(op)
    ensures Total(Run(c, st, ops).sov.balances) == Total(st.sov.balances)
  {
    forall o | o in ops ensures OpOk(o) {
      assert ChargesOnly(o);
    }
    if ops != [] {
      var front, op := ops[..|ops| - 1], Last(ops);
      assert op in ops && forall o :: o in front ==> o in ops;
      RunConservesSupply(c, st, front);
      StepSupply(c, Run(c, st, front), op);
    }
  }

  lemma {:induction false} StepSupply(c: Crypto, st: Chain, op: Op)
    requires Total(st.sov.balances) <= U128_MAX && ChargesOnly(op) && OpOk(op)
    ensures Total(Step(c, st, op).sov.balances) == Total(st.sov.balances)
  {
    match op
    case CommitOp(b, v) => CommitSupply(c, st, b, v);
    case FinalizeOp =>
    case ReorgOp(t, bs, vs) => AddAllSupply(c, st.(blocks := KeepBelow(st.blocks, t)), bs, vs);
    case MergeOp(_) =>
  }

  // ------------------------------------------------------------- which chains adopt an import

  /** A chain beyond genesis, or with anything finalized, is never replaced. */
  lemma {:induction false} MergeKeepsGrownChain(st: Chain, import_: Option<Import>)
    requires (st.blocks != [] && st.height > 0) || st.finalized != {} || import_ == None
    ensures Merge(st, import_) == st
  {}

  /** When exactly an import is adopted, and what of it is taken over. */
  lemma {:induction false} MergeAdoptsExactly(c: Crypto, txOk: Transaction -> bool, st: Chain, import_: Option<Import>)
    ensures MergeOutcome(c, txOk, st, import_) == ImportedAdopted <==>
              st.finalized == {} && import_.Some? && import_.value.blocks != [] && (st.blocks == [] || st.height == 0)
    ensures MergeOutcome(c, txOk, st, import_) == ImportedAdopted ==>
              var st', i := Merge(st, import_), import_.value;
              && st'.blocks == i.blocks && st'.utxos == i.utxos && st'.sov == i.sov
              && st'.height + 1 == |st'.blocks|
              && st'.nullifiers == st.nullifiers && st'.finalized == {}
              && st'.finalityDepth == st.finalityDepth && st'.maxReorgDepth == st.maxReorgDepth
    ensures MergeOutcome(c, txOk, st, import_) != ImportedAdopted ==> Merge(st, import_) == st
    ensures MergeOutcome(c, txOk, st, import_) == Refused <==>
              || st.finalized != {} || import_ == None
              || (st.blocks != [] && st.height > 0 && !AllVerified(c, txOk, import_.value.blocks))
  {}

  // ------------------------------------------------------------- dropping and adding blocks

  /** Dropping from a height on works block by block and keeps the order. */
  lemma {:induction false} KeepBelowAppend(a: seq<Block>, b: seq<Block>, target: nat)
    ensures KeepBelow(a + b, target) == KeepBelow(a, target) + KeepBelow(b, target)
    decreases |b|
  {
    if b == [] {
      assert a + b == a;
    } else {
      KeepBelowAppend(a, b[..|b| - 1], target);
      assert (a + b)[..|a + b| - 1] == a + b[..|b| - 1];
    }
  }

  lemma {:induction false} KeepBelowOne(b: Block, target: nat)
    ensures KeepBelow([b], target) == if b.header.height < target then [b] else []
  {
    assert [b][..0] == [];
  }

  /** The state after committing the first `n` blocks, whatever they report. */
  function CommitFirst(c: Crypto, st: Chain, blocks: seq<Block>, vs: seq<Verdict>, n: nat): Chain
    requires |blocks| == |vs| && n <= |blocks|
  {
    if n == 0 then st else Commit(c, CommitFirst(c, st, blocks, vs, n - 1), blocks[n - 1], vs[n - 1])
  }

  lemma {:induction false} CommitFirstTail(c: Crypto, st: Chain, blocks: seq<Block>, vs: seq<Verdict>, n: nat)
    requires |blocks| == |vs| && 0 < n <= |blocks|
    ensures CommitFirst(c, st, blocks, vs, n)
         == CommitFirst(c, Commit(c, st, blocks[0], vs[0]), blocks[1..], vs[1..], n - 1)
  {
    if n > 1 {
      CommitFirstTail(c, st, blocks, vs, n - 1);
    }
  }

  /** Adding blocks commits them one after the other up to and including the first that reports an error, and
      keeps what was done until then. */
  lemma {:induction false} AddAllStopsAtFirstError(c: Crypto, st: Chain, blocks: seq<Block>, vs: seq<Verdict>)
    returns (n: nat)
    requires |blocks| == |vs|
    ensures n <= |blocks|
    ensures forall k: nat :: k < n ==> CommitOk(c, CommitFirst(c, st, blocks, vs, k), blocks[k], vs[k])
    ensures n < |blocks| ==> !CommitOk(c, CommitFirst(c, st, blocks, vs, n), blocks[n], vs[n])
    ensures AddAll(c, st, blocks, vs) == CommitFirst(c, st, blocks, vs, if n < |blocks| then n + 1 else n)
    ensures AddAllOk(c, st, blocks, vs) <==> n == |blocks|
    decreases |blocks|
  {
    n := 0;
    if blocks != [] && CommitOk(c, st, blocks[0], vs[0]) {
      var next := Commit(c, st, blocks[0], vs[0]);
      var m := AddAllStopsAtFirstError(c, next, blocks[1..], vs[1..]);
      n := m + 1;
      forall k: nat | 0 < k <= |blocks|
        ensures CommitFirst(c, st, blocks, vs, k) == CommitFirst(c, next, blocks[1..], vs[1..], k - 1)
      {
        CommitFirstTail(c, st, blocks, vs, k);
      }
      forall k: nat | k < n ensures CommitOk(c, CommitFirst(c, st, blocks, vs, k), blocks[k], vs[k]) {
        if k > 0 {
          assert blocks[1..][k - 1] == blocks[k] && vs[1..][k - 1] == vs[k];
        }
      }
    }
  }
}
