/** Restoring a snapshot rebuilds the store it was taken from, and equal stores hash equally. */
module SnapshotRoundTrip {
  import opened Common
  import opened KeySort
  import opened Snapshot

  /** Height `h` is stored the way `append_block` stores a block. */
  ghost predicate Stored(codec: Codec, t: Trees, h: nat) {
    var key := ToBE(h, 8);
    && key in t.blocksByHeight
    && t.blocksByHeight[key] in t.blocksByHash
    && var raw := t.blocksByHash[t.blocksByHeight[key]];
    && codec.decode(raw).Some?
    && codec.decode(raw).value.blockHash == t.blocksByHeight[key]
    && codec.encode(codec.decode(raw).value) == raw
  }

  function Raw(t: Trees, h: nat): Bytes
    requires ToBE(h, 8) in t.blocksByHeight && t.blocksByHeight[ToBE(h, 8)] in t.blocksByHash
  {
    t.blocksByHash[t.blocksByHeight[ToBE(h, 8)]]
  }

  /** The block trees hold a complete chain up to height `top`, and nothing else. */
  ghost predicate CompleteChain(codec: Codec, t: Trees, top: nat) {
    && (forall h: nat :: h <= top ==> Stored(codec, t, h))
    && HeightsUpTo(t, top)
    && HashesUpTo(t, top)
  }

  ghost predicate HeightsUpTo(t: Trees, top: nat) {
    forall k :: k in t.blocksByHeight ==> |k| == 8 && FromBE(k) <= top
  }

  ghost predicate HashesUpTo(t: Trees, top: nat) {
    forall k :: k in t.blocksByHash ==> exists h: nat :: h <= top && StoredAs(t, h, k)
  }

  /** Keys and values have the exact length of their format. */
  ghost predicate ExactLengths(t: Trees) {
    && (forall k :: k in t.utxos ==> |k| == 36)
    && (forall k :: k in t.tokenBalances ==> |k| == 64 && |t.tokenBalances[k]| == 16)
    && (forall k :: k in t.accounts ==> |k| == 32)
    && (forall k :: k in t.identities ==> |k| == 32)
  }

  ghost predicate WellFormed(codec: Codec, t: Trees) {
    && LATEST_HEIGHT in t.meta && |t.meta[LATEST_HEIGHT]| == 8
    && CompleteChain(codec, t, FromBE(t.meta[LATEST_HEIGHT])) && ExactLengths(t)
  }

  /** The height index points to a block that decodes. */
  predicate Readable(codec: Codec, t: Trees, h: nat) {
    var key := ToBE(h, 8);
    && key in t.blocksByHeight && t.blocksByHeight[key] in t.blocksByHash
    && codec.decode(t.blocksByHash[t.blocksByHeight[key]]).Some?
  }

  /** Nothing is stored for the height, or something readable. */
  predicate Sound(codec: Codec, t: Trees, h: nat) {
    ToBE(h, 8) in t.blocksByHeight ==> Readable(codec, t, h)
  }

  lemma {:induction false} BlocksReadExactly(codec: Codec, t: Trees, n: nat)
    ensures BlocksBelow(codec, t, n).Ok? <==> forall h: nat :: h < n ==> Sound(codec, t, h)
  {
    if n > 0 {
      BlocksReadExactly(codec, t, n - 1);
      assert GetBlock(codec, t, n - 1).Ok? <==> Sound(codec, t, n - 1);
    }
  }

  lemma {:induction false} SnapshotSteps(codec: Codec, blake3: Bytes -> Hash, t: Trees, now: nat, o: Orders, top: nat)
    requires LatestHeight(t) == Ok(top)
    ensures SnapshotOf(codec, blake3, t, now, o).Ok? <==>
              && GetBlock(codec, t, top).Ok? && GetBlock(codec, t, top).value.Some?
              && BlocksBelow(codec, t, top + 1).Ok?
  {}

  /** A snapshot can be taken exactly of a store that records its height in eight bytes, has a readable block
      there and none below that cannot be read. */
  lemma {:induction false} SnapshotSucceedsExactly(codec: Codec, blake3: Bytes -> Hash, t: Trees, now: nat, o: Orders)
    ensures SnapshotOf(codec, blake3, t, now, o).Ok? <==>
              && LATEST_HEIGHT in t.meta && |t.meta[LATEST_HEIGHT]| == 8
              && var top := FromBE(t.meta[LATEST_HEIGHT]);
              && Readable(codec, t, top) && forall h: nat :: h <= top ==> Sound(codec, t, h)
  {
    if LATEST_HEIGHT in t.meta && |t.meta[LATEST_HEIGHT]| == 8 {
      var top := FromBE(t.meta[LATEST_HEIGHT]);
      SnapshotSteps(codec, blake3, t, now, o, top);
      BlocksReadExactly(codec, t, top + 1);
    }
  }

  predicate StoredAs(t: Trees, h: nat, hash: Bytes) {
    ToBE(h, 8) in t.blocksByHeight && t.blocksByHeight[ToBE(h, 8)] == hash
  }

  /** `p` holds exactly part of the block trees of `t`, and all of heights below `n`. */
  ghost predicate RestoredBelow(t: Trees, p: BlockTrees, n: nat) {
    && !p.failed
    && (forall k :: k in p.byHeight ==> k in t.blocksByHeight && p.byHeight[k] == t.blocksByHeight[k])
    && (forall k :: k in p.byHash ==> k in t.blocksByHash && p.byHash[k] == t.blocksByHash[k])
    && (forall h: nat :: h < n ==> HasHeight(t, p, h))
  }

  predicate HasHeight(t: Trees, p: BlockTrees, h: nat) {
    && ToBE(h, 8) in p.byHeight
    && ToBE(h, 8) in t.blocksByHeight
    && t.blocksByHeight[ToBE(h, 8)] in p.byHash
  }

  lemma {:induction false} BlocksRoundTrip(codec: Codec, t: Trees, n: nat)
    requires forall h: nat :: h < n ==> Stored(codec, t, h)
    ensures BlocksBelow(codec, t, n).Ok?
    ensures RestoredBelow(t, RestoredBlocks(codec, BlocksBelow(codec, t, n).value), n)
  {
    if n > 0 {
      BlocksRoundTrip(codec, t, n - 1);
      assert Stored(codec, t, n - 1);
      OneMoreBlock(codec, t, n - 1, BlocksBelow(codec, t, n - 1).value);
    }
  }

  /** Reading and restoring the block at height `h` after those below it. */
  lemma {:induction false} OneMoreBlock(codec: Codec, t: Trees, h: nat, front: seq<BlockEntry>)
    requires Stored(codec, t, h) && BlocksBelow(codec, t, h) == Ok(front)
    requires RestoredBelow(t, RestoredBlocks(codec, front), h)
    ensures BlocksBelow(codec, t, h + 1).Ok?
    ensures RestoredBelow(t, RestoredBlocks(codec, BlocksBelow(codec, t, h + 1).value), h + 1)
  {
    var entry := BlockEntry(h, Raw(t, h));
    assert BlocksBelow(codec, t, h + 1) == Ok(front + [entry]);
    assert (front + [entry])[..|front|] == front;
    var p, p' := RestoredBlocks(codec, front), RestoredBlocks(codec, front + [entry]);
    RestoredOneMore(codec, t, h, p, p');
  }

  lemma {:induction false} RestoredOneMore(codec: Codec, t: Trees, h: nat, p: BlockTrees, p': BlockTrees)
    requires Stored(codec, t, h) && RestoredBelow(t, p, h) && !p'.failed
    requires p'.byHeight == p.byHeight[ToBE(h, 8) := t.blocksByHeight[ToBE(h, 8)]]
    requires p'.byHash == p.byHash[t.blocksByHeight[ToBE(h, 8)] := Raw(t, h)]
    ensures RestoredBelow(t, p', h + 1)
  {
    forall g: nat | g <= h ensures HasHeight(t, p', g) {
      if g < h {
        assert HasHeight(t, p, g);
      }
    }
  }

  lemma {:induction false} HeightsRebuilt(t: Trees, p: BlockTrees, top: nat)
    requires HeightsUpTo(t, top) && RestoredBelow(t, p, top + 1)
    ensures p.byHeight == t.blocksByHeight
  {
    forall k | k in t.blocksByHeight ensures k in p.byHeight {
      ToFromBE(k);
      assert HasHeight(t, p, FromBE(k));
    }
  }

  lemma {:induction false} HashesRebuilt(t: Trees, p: BlockTrees, top: nat)
    requires HashesUpTo(t, top) && RestoredBelow(t, p, top + 1)
    ensures p.byHash == t.blocksByHash
  {
    forall k | k in t.blocksByHash ensures k in p.byHash {
      var h: nat :| h <= top && StoredAs(t, h, k);
      assert HasHeight(t, p, h);
    }
  }

  lemma {:induction false} BlockTreesRebuilt(codec: Codec, t: Trees, top: nat)
    requires CompleteChain(codec, t, top)
    ensures BlocksBelow(codec, t, top + 1).Ok?
    ensures RestoredBlocks(codec, BlocksBelow(codec, t, top + 1).value)
         == BlockTrees(t.blocksByHeight, t.blocksByHash, false)
  {
    BlocksRoundTrip(codec, t, top + 1);
    var p := RestoredBlocks(codec, BlocksBelow(codec, t, top + 1).value);
    HeightsRebuilt(t, p, top);
    HashesRebuilt(t, p, top);
  }

  lemma {:induction false} EntryTreesRebuilt(t: Trees, o: Orders)
    requires ExactLengths(t) && VisitsAll(t, o)
    ensures Inserted(map[], CollectFrom(t.utxos, o.utxos, UtxoOf), UtxoKey, UtxoValue) == t.utxos
    ensures Inserted(map[], CollectFrom(t.tokenBalances, o.balances, BalanceOf), BalanceKey, BalanceValue)
         == t.tokenBalances
    ensures Inserted(map[], CollectFrom(t.accounts, o.accounts, KeyedOf), KeyedKey, KeyedValue) == t.accounts
    ensures Inserted(map[], CollectFrom(t.identities, o.identities, KeyedOf), KeyedKey, KeyedValue) == t.identities
  {
    UtxosFaithful(t.utxos);
    BalancesFaithful(t.tokenBalances);
    KeyedFaithful(t.accounts);
    KeyedFaithful(t.identities);
    TreeRoundTrip(t.utxos, o.utxos, UtxoOf, UtxoKey, UtxoValue);
    TreeRoundTrip(t.tokenBalances, o.balances, BalanceOf, BalanceKey, BalanceValue);
    TreeRoundTrip(t.accounts, o.accounts, KeyedOf, KeyedKey, KeyedValue);
    TreeRoundTrip(t.identities, o.identities, KeyedOf, KeyedKey, KeyedValue);
  }

  /** The state hash is not part of what is hashed, so a fresh snapshot passes its own checks. */
  lemma {:induction false} FreshIsRestorable(blake3: Bytes -> Hash, s: Snap)
    requires s.version == VERSION
    ensures Restorable(blake3, WithHash(blake3, s))
  {}

  lemma {:induction false} TipReads(codec: Codec, t: Trees, top: nat)
    requires CompleteChain(codec, t, top)
    ensures GetBlock(codec, t, top).Ok? && GetBlock(codec, t, top).value.Some?
  {
    assert Stored(codec, t, top);
  }

  lemma {:induction false} SnapshotShape(codec: Codec, blake3: Bytes -> Hash, t: Trees, now: nat, o: Orders,
                      top: nat, tip: Block, blocks: seq<BlockEntry>)
    requires LatestHeight(t) == Ok(top) && GetBlock(codec, t, top) == Ok(Some(tip))
    requires BlocksBelow(codec, t, top + 1) == Ok(blocks)
    ensures SnapshotOf(codec, blake3, t, now, o)
         == Ok(WithHash(blake3, Collected(t, top, tip.blockHash, blocks, now, o)))
  {}

  /** What a snapshot of a well-formed store holds. */
  lemma {:induction false} SnapshotSucceeds(codec: Codec, blake3: Bytes -> Hash, t: Trees, now: nat, o: Orders,
                         top: nat, tip: Hash, blocks: seq<BlockEntry>)
    requires LatestHeight(t) == Ok(top) && CompleteChain(codec, t, top)
    requires tip == TipHash(codec, t, top) && blocks == ChainEntries(codec, t, top)
    ensures SnapshotOf(codec, blake3, t, now, o) == Ok(WithHash(blake3, Collected(t, top, tip, blocks, now, o)))
  {
    TipReads(codec, t, top);
    BlockTreesRebuilt(codec, t, top);
    SnapshotShape(codec, blake3, t, now, o, top, GetBlock(codec, t, top).value.value, blocks);
  }

  ghost function TipHash(codec: Codec, t: Trees, top: nat): Hash
    requires CompleteChain(codec, t, top)
  {
    TipReads(codec, t, top);
    GetBlock(codec, t, top).value.value.blockHash
  }

  ghost function ChainEntries(codec: Codec, t: Trees, top: nat): (blocks: seq<BlockEntry>)
    requires CompleteChain(codec, t, top)
    ensures BlocksBelow(codec, t, top + 1) == Ok(blocks)
    ensures RestoredBlocks(codec, blocks) == BlockTrees(t.blocksByHeight, t.blocksByHash, false)
  {
    BlockTreesRebuilt(codec, t, top);
    BlocksBelow(codec, t, top + 1).value
  }

  lemma {:induction false} CollectedRestores(codec: Codec, t: Trees, s: Snap, o: Orders)
    requires RestoredBlocks(codec, s.blocks) == BlockTrees(t.blocksByHeight, t.blocksByHash, false)
    requires s.utxos == CollectFrom(t.utxos, o.utxos, UtxoOf)
    requires s.balances == CollectFrom(t.tokenBalances, o.balances, BalanceOf)
    requires s.accounts == CollectFrom(t.accounts, o.accounts, KeyedOf)
    requires s.identities == CollectFrom(t.identities, o.identities, KeyedOf)
    requires ExactLengths(t) && VisitsAll(t, o)
    ensures Restored(codec, s) == t.(meta := map[LATEST_HEIGHT := ToBE(s.height, 8)])
  {
    EntryTreesRebuilt(t, o);
  }

  lemma {:induction false} LatestHeightBytes(t: Trees, top: nat)
    requires LatestHeight(t) == Ok(top)
    ensures LATEST_HEIGHT in t.meta && ToBE(top, 8) == t.meta[LATEST_HEIGHT]
  {
    ToFromBE(t.meta[LATEST_HEIGHT]);
  }

  /** `r` is a snapshot that any store accepts, and that turns it into `t`. Of the meta tree only the
      height survives. */
  ghost predicate Rebuilds(codec: Codec, blake3: Bytes -> Hash, r: Result<Snap, Error>, t: Trees)
    requires LATEST_HEIGHT in t.meta
  {
    && r.Ok?
    && Restorable(blake3, r.value)
    && !RestoredBlocks(codec, r.value.blocks).failed
    && Restored(codec, r.value) == t.(meta := map[LATEST_HEIGHT := t.meta[LATEST_HEIGHT]])
  }

  lemma {:induction false} RestoreRebuilds(codec: Codec, blake3: Bytes -> Hash, t: Trees, now: nat, o: Orders,
                        top: nat, tip: Hash, blocks: seq<BlockEntry>)
    requires LatestHeight(t) == Ok(top)
    requires RestoredBlocks(codec, blocks) == BlockTrees(t.blocksByHeight, t.blocksByHash, false)
    requires ExactLengths(t) && VisitsAll(t, o)
    ensures Rebuilds(codec, blake3, Ok(WithHash(blake3, Collected(t, top, tip, blocks, now, o))), t)
  {
    var s := WithHash(blake3, Collected(t, top, tip, blocks, now, o));
    FreshIsRestorable(blake3, Collected(t, top, tip, blocks, now, o));
    CollectedRestores(codec, t, s, o);
    LatestHeightBytes(t, top);
  }

  /** A snapshot of a well-formed store can be taken, and restoring it into any store, whatever that
      held, gives the source's trees and height. */
  lemma {:induction false} RestoreRebuildsStore(codec: Codec, blake3: Bytes -> Hash, t: Trees, now: nat, o: Orders)
    requires WellFormed(codec, t) && VisitsAll(t, o)
    ensures Rebuilds(codec, blake3, SnapshotOf(codec, blake3, t, now, o), t)
  {
    var top := LatestHeight(t).value;
    var tip, blocks := TipHash(codec, t, top), ChainEntries(codec, t, top);
    SnapshotSucceeds(codec, blake3, t, now, o, top, tip, blocks);
    RestoreRebuilds(codec, blake3, t, now, o, top, tip, blocks);
  }

  /** Taking a snapshot of one store and restoring it into another. */
  method Transfer(source: SledStore, target: SledStore, codec: Codec, blake3: Bytes -> Hash, now: nat)
    returns (r: Result<(), Error>)
    requires WellFormed(codec, source.View())
    modifies target
    ensures r == Ok(())
    ensures target.View() == old(source.View()).(meta := map[LATEST_HEIGHT := old(source.meta)[LATEST_HEIGHT]])
  {
    var s, o := source.TakeSnapshot(codec, blake3, now);
    ghost var top := LatestHeight(source.View()).value;
    SnapshotSucceeds(codec, blake3, source.View(), now, o, top,
                     TipHash(codec, source.View(), top), ChainEntries(codec, source.View(), top));
    RestoreRebuildsStore(codec, blake3, source.View(), now, o);
    r := target.Restore(codec, blake3, s.value);
  }

  // ------------------------------------------------------------- same state, same hash

  /** Different keys of the tree become entries with different sort keys. */
  ghost predicate Separates<E>(tree: Tree, entryOf: (Bytes, Bytes) -> Option<E>, key: E -> Key) {
    forall k, k' :: Yields(tree, entryOf, k) && Yields(tree, entryOf, k') && k != k' ==>
      key(entryOf(k, tree[k]).value) != key(entryOf(k', tree[k']).value)
  }

  predicate Yields<E>(tree: Tree, entryOf: (Bytes, Bytes) -> Option<E>, k: Bytes) {
    k in tree && entryOf(k, tree[k]).Some?
  }

  lemma {:induction false} CollectMember<E>(tree: Tree, order: seq<Bytes>, entryOf: (Bytes, Bytes) -> Option<E>, e: E)
    ensures e in CollectFrom(tree, order, entryOf)
       <==> exists k :: k in order && Yields(tree, entryOf, k) && entryOf(k, tree[k]).value == e
    decreases |order|
  {
    if order != [] {
      var front, last := order[..|order| - 1], order[|order| - 1];
      CollectMember(tree, front, entryOf, e);
      assert forall k :: k in order <==> k in front || k == last;
    }
  }

  lemma {:induction false} CollectUnique<E>(tree: Tree, order: seq<Bytes>, entryOf: (Bytes, Bytes) -> Option<E>,
                                            key: E -> Key)
    requires Separates(tree, entryOf, key) && Distinct(order)
    ensures UniqueKeys(key, CollectFrom(tree, order, entryOf))
    decreases |order|
  {
    if order != [] {
      var front, last := order[..|order| - 1], order[|order| - 1];
      CollectUnique(tree, front, entryOf, key);
      if Yields(tree, entryOf, last) {
        var es := CollectFrom(tree, front, entryOf);
        forall i | 0 <= i < |es| ensures key(es[i]) != key(entryOf(last, tree[last]).value) {
          CollectMember(tree, front, entryOf, es[i]);
          var k :| k in front && Yields(tree, entryOf, k) && entryOf(k, tree[k]).value == es[i];
        }
      }
    }
  }

  /** Two visits of one tree collect the same entries, each once. */
  lemma {:induction false} SameCollection<E>(tree: Tree, a: seq<Bytes>, b: seq<Bytes>,
                                             entryOf: (Bytes, Bytes) -> Option<E>, key: E -> Key)
    requires Separates(tree, entryOf, key) && Visits(tree, a) && Visits(tree, b)
    ensures SameElements(CollectFrom(tree, a, entryOf), CollectFrom(tree, b, entryOf))
    ensures UniqueKeys(key, CollectFrom(tree, a, entryOf)) && UniqueKeys(key, CollectFrom(tree, b, entryOf))
  {
    CollectUnique(tree, a, entryOf, key);
    CollectUnique(tree, b, entryOf, key);
    forall e | e in CollectFrom(tree, a, entryOf) ensures e in CollectFrom(tree, b, entryOf) {
      CollectMember(tree, a, entryOf, e);
      CollectMember(tree, b, entryOf, e);
    }
    forall e | e in CollectFrom(tree, b, entryOf) ensures e in CollectFrom(tree, a, entryOf) {
      CollectMember(tree, a, entryOf, e);
      CollectMember(tree, b, entryOf, e);
    }
  }

  lemma {:induction false} UtxoKeysDiffer(k: Bytes, v: Bytes, k': Bytes, v': Bytes)
    requires |k| == |k'| == 36 && UtxoSortKey(UtxoOf(k, v).value) == UtxoSortKey(UtxoOf(k', v').value)
    ensures k == k'
  {
    var s, s' := UtxoSortKey(UtxoOf(k, v).value), UtxoSortKey(UtxoOf(k', v').value);
    assert s[..32] == k[..32] && s'[..32] == k'[..32] && s[32] == s'[32];
    ToFromBE(k[32..36]);
    ToFromBE(k'[32..36]);
    assert k == k[..32] + k[32..36] && k' == k'[..32] + k'[32..36];
  }

  lemma {:induction false} UtxosSeparate(tree: Tree)
    requires forall k :: k in tree ==> |k| == 36
    ensures Separates(tree, UtxoOf, UtxoSortKey)
  {
    forall k, k' | k in tree && k' in tree
                   && UtxoSortKey(UtxoOf(k, tree[k]).value) == UtxoSortKey(UtxoOf(k', tree[k']).value)
      ensures k == k'
    {
      UtxoKeysDiffer(k, tree[k], k', tree[k']);
    }
  }

  lemma {:induction false} BalancesSeparate(tree: Tree)
    requires forall k :: k in tree ==> |k| == 64 && |tree[k]| == 16
    ensures Separates(tree, BalanceOf, BalanceSortKey)
  {
    forall k | k in tree ensures BalanceSortKey(BalanceOf(k, tree[k]).value) == k {
      BalanceKeyBack(k, tree[k]);
    }
  }

  lemma {:induction false} BalanceKeyBack(k: Bytes, v: Bytes)
    requires |k| == 64 && |v| == 16
    ensures BalanceSortKey(BalanceOf(k, v).value) == k
  {
    assert k == k[..32] + k[32..64];
  }

  lemma {:induction false} KeyedSeparate(tree: Tree)
    requires forall k :: k in tree ==> |k| == 32
    ensures Separates(tree, KeyedOf, KeyedSortKey)
  {
    forall k | k in tree ensures KeyedSortKey(KeyedOf(k, tree[k]).value) == k {
      assert k[..32] == k;
    }
  }

  lemma {:induction false} SameCollections(t: Trees, height: nat, tip: Hash, blocks: seq<BlockEntry>,
                                           now: nat, now': nat, o: Orders, o': Orders)
    requires ExactLengths(t) && VisitsAll(t, o) && VisitsAll(t, o')
    ensures Preimage(Collected(t, height, tip, blocks, now, o)) == Preimage(Collected(t, height, tip, blocks, now', o'))
  {
    UtxosSeparate(t.utxos);
    BalancesSeparate(t.tokenBalances);
    KeyedSeparate(t.accounts);
    KeyedSeparate(t.identities);
    SameCollection(t.utxos, o.utxos, o'.utxos, UtxoOf, UtxoSortKey);
    SameCollection(t.tokenBalances, o.balances, o'.balances, BalanceOf, BalanceSortKey);
    SameCollection(t.accounts, o.accounts, o'.accounts, KeyedOf, KeyedSortKey);
    SameCollection(t.identities, o.identities, o'.identities, KeyedOf, KeyedSortKey);
    PreimageCanonical(Collected(t, height, tip, blocks, now, o), Collected(t, height, tip, blocks, now', o'));
  }

  /** The same state always gives the same state hash, whenever and in whatever order it is read. */
  lemma {:induction false} SameStateSameHash(codec: Codec, blake3: Bytes -> Hash, t: Trees,
                                             now: nat, now': nat, o: Orders, o': Orders)
    requires WellFormed(codec, t) && VisitsAll(t, o) && VisitsAll(t, o')
    ensures SnapshotOf(codec, blake3, t, now, o).Ok? && SnapshotOf(codec, blake3, t, now', o').Ok?
    ensures SnapshotOf(codec, blake3, t, now, o).value.stateHash
         == SnapshotOf(codec, blake3, t, now', o').value.stateHash
  {
    var top := LatestHeight(t).value;
    var tip, blocks := TipHash(codec, t, top), ChainEntries(codec, t, top);
    SnapshotSucceeds(codec, blake3, t, now, o, top, tip, blocks);
    SnapshotSucceeds(codec, blake3, t, now', o', top, tip, blocks);
    SameCollections(t, top, tip, blocks, now, now', o, o');
  }
}
