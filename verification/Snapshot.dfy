/** Snapshot and restore of the persistent store: byte-level keys, the canonical state hash, and
    the key-value trees rebuilt by a restore. */
module Snapshot {
  import opened Common
  import opened KeySort

  /** The trees a snapshot covers. */
  datatype Trees = Trees(
    blocksByHeight: Tree, blocksByHash: Tree, utxos: Tree,
    accounts: Tree, tokenBalances: Tree, identities: Tree, meta: Tree)

  /** A block: its header's hash, and everything else in it. */
  datatype Block = Block(blockHash: Hash, rest: Bytes)

  /** The bincode serializer for blocks. */
  datatype Codec = Codec(encode: Block -> Bytes, decode: Bytes -> Option<Block>)

  datatype BlockEntry = BlockEntry(height: nat, data: Bytes)
  datatype UtxoEntry = UtxoEntry(txHash: Hash, index: nat, data: Bytes)
  datatype BalanceEntry = BalanceEntry(token: Hash, address: Hash, balance: nat)
  /** An account by address, or an identity by DID key. */
  datatype KeyedEntry = KeyedEntry(key: Hash, data: Bytes)

  datatype Snap = Snap(
    version: nat, height: nat, blockHash: Hash, stateHash: Hash, createdAt: nat,
    blocks: seq<BlockEntry>, utxos: seq<UtxoEntry>, balances: seq<BalanceEntry>,
    accounts: seq<KeyedEntry>, identities: seq<KeyedEntry>)

  datatype Error = NotInitialized | Corrupted | Serialization | HeightNotFound | InvalidVersion | HashMismatch

  const VERSION: nat := 2
  const MIN_VERSION: nat := 1
  /** The ASCII bytes of "latest_height". */
  const LATEST_HEIGHT: Bytes := [108, 97, 116, 101, 115, 116, 95, 104, 101, 105, 103, 104, 116]

  lemma {:induction false} LatestHeightKey(i: nat)
    requires i < 13
    ensures |LATEST_HEIGHT| == |"latest_height"| == 13 && LATEST_HEIGHT[i] == "latest_height"[i] as int
  {}

  // ------------------------------------------------------------- tree entries

  function UtxoOf(k: Bytes, v: Bytes): Option<UtxoEntry> {
    if |k| >= 36 then Some(UtxoEntry(k[..32], FromBE(k[32..36]), v)) else None
  }
  function UtxoKey(e: UtxoEntry): Bytes { e.txHash + ToBE(e.index, 4) }
  function UtxoValue(e: UtxoEntry): Bytes { e.data }
  function UtxoSortKey(e: UtxoEntry): Key { e.txHash + [e.index] }

  function BalanceOf(k: Bytes, v: Bytes): Option<BalanceEntry> {
    if |k| >= 64 && |v| >= 16 then Some(BalanceEntry(k[..32], k[32..64], FromBE(v[..16]))) else None
  }
  function BalanceKey(e: BalanceEntry): Bytes { Join(e.token, e.address) }
  function BalanceValue(e: BalanceEntry): Bytes { ToBE(e.balance, 16) }
  function BalanceSortKey(e: BalanceEntry): Key { Join(e.token, e.address) }

  function KeyedOf(k: Bytes, v: Bytes): Option<KeyedEntry> {
    if |k| >= 32 then Some(KeyedEntry(k[..32], v)) else None
  }
  function KeyedKey(e: KeyedEntry): Bytes { e.key }
  function KeyedValue(e: KeyedEntry): Bytes { e.data }
  function KeyedSortKey(e: KeyedEntry): Key { e.key }

  /** The entries of a tree visited in the given order; keys too short for the format are skipped. */
  function CollectFrom<E>(tree: Tree, order: seq<Bytes>, entryOf: (Bytes, Bytes) -> Option<E>): seq<E> {
    if order == [] then []
    else
      var front := CollectFrom(tree, order[..|order| - 1], entryOf);
      var k := order[|order| - 1];
      if k in tree && entryOf(k, tree[k]).Some? then front + [entryOf(k, tree[k]).value] else front
  }

  /** `tree` after inserting every entry in turn. */
  function Inserted<E>(tree: Tree, es: seq<E>, keyOf: E -> Bytes, valueOf: E -> Bytes): Tree {
    if es == [] then tree
    else Inserted(tree, es[..|es| - 1], keyOf, valueOf)[keyOf(es[|es| - 1]) := valueOf(es[|es| - 1])]
  }

  method Collect<E>(tree: Tree, entryOf: (Bytes, Bytes) -> Option<E>) returns (es: seq<E>, ghost order: seq<Bytes>)
    ensures Visits(tree, order) && es == CollectFrom(tree, order, entryOf)
  {
    es, order := [], [];
    var rest := tree.Keys;
    while rest != {}
      invariant rest <= tree.Keys
      invariant forall k :: k in order <==> k in tree && k !in rest
      invariant Distinct(order)
      invariant es == CollectFrom(tree, order, entryOf)
      decreases rest
    {
      var k :| k in rest;
      rest := rest - {k};
      var e := entryOf(k, tree[k]);
      if e.Some? {
        es := es + [e.value];
      }
      assert (order + [k])[..|order|] == order;
      order := order + [k];
    }
  }

  method InsertAll<E>(tree: Tree, es: seq<E>, keyOf: E -> Bytes, valueOf: E -> Bytes) returns (r: Tree)
    ensures r == Inserted(tree, es, keyOf, valueOf)
  {
    r := tree;
    for i := 0 to |es|
      invariant r == Inserted(tree, es[..i], keyOf, valueOf)
    {
      assert es[..i + 1][..i] == es[..i];
      r := r[keyOf(es[i]) := valueOf(es[i])];
    }
    assert es[..|es|] == es;
  }

  /** Every entry of the tree has the exact format its entry type can carry. */
  ghost predicate Faithful<E>(tree: Tree, entryOf: (Bytes, Bytes) -> Option<E>,
                              keyOf: E -> Bytes, valueOf: E -> Bytes)
  {
    forall k :: k in tree ==>
      && entryOf(k, tree[k]).Some?
      && keyOf(entryOf(k, tree[k]).value) == k
      && valueOf(entryOf(k, tree[k]).value) == tree[k]
  }

  function Restricted(tree: Tree, order: seq<Bytes>): Tree {
    map k | k in tree && InSeq(k, order) :: tree[k]
  }

  predicate InSeq(k: Bytes, order: seq<Bytes>) {
    k in order
  }

  lemma {:induction false} InsertedCollected<E>(tree: Tree, order: seq<Bytes>, entryOf: (Bytes, Bytes) -> Option<E>,
                                                keyOf: E -> Bytes, valueOf: E -> Bytes)
    requires Faithful(tree, entryOf, keyOf, valueOf) && forall k :: k in order ==> k in tree
    ensures Inserted(map[], CollectFrom(tree, order, entryOf), keyOf, valueOf) == Restricted(tree, order)
    decreases |order|
  {
    if order != [] {
      var front, k := order[..|order| - 1], order[|order| - 1];
      InsertedCollected(tree, front, entryOf, keyOf, valueOf);
      assert k in order;
      var es, e := CollectFrom(tree, front, entryOf), entryOf(k, tree[k]).value;
      assert (es + [e])[..|es|] == es;
      assert forall x :: x in order <==> x in front || x == k;
    }
  }

  /** Collecting a faithful tree in any order and inserting into an empty one rebuilds it. */
  lemma {:induction false} TreeRoundTrip<E>(tree: Tree, order: seq<Bytes>, entryOf: (Bytes, Bytes) -> Option<E>,
                         keyOf: E -> Bytes, valueOf: E -> Bytes)
    requires Faithful(tree, entryOf, keyOf, valueOf) && Visits(tree, order)
    ensures Inserted(map[], CollectFrom(tree, order, entryOf), keyOf, valueOf) == tree
  {
    InsertedCollected(tree, order, entryOf, keyOf, valueOf);
    assert Restricted(tree, order) == tree;
  }

  lemma {:induction false} UtxosFaithful(tree: Tree)
    requires forall k :: k in tree ==> |k| == 36
    ensures Faithful(tree, UtxoOf, UtxoKey, UtxoValue)
  {
    forall k | k in tree ensures UtxoKey(UtxoOf(k, tree[k]).value) == k {
      ToFromBE(k[32..36]);
      assert k == k[..32] + k[32..36];
    }
  }

  lemma {:induction false} BalancesFaithful(tree: Tree)
    requires forall k :: k in tree ==> |k| == 64 && |tree[k]| == 16
    ensures Faithful(tree, BalanceOf, BalanceKey, BalanceValue)
  {
    forall k | k in tree
      ensures BalanceKey(BalanceOf(k, tree[k]).value) == k && BalanceValue(BalanceOf(k, tree[k]).value) == tree[k]
    {
      ToFromBE(tree[k]);
      assert tree[k][..16] == tree[k];
      assert k == k[..32] + k[32..64];
    }
  }

  lemma {:induction false} KeyedFaithful(tree: Tree)
    requires forall k :: k in tree ==> |k| == 32
    ensures Faithful(tree, KeyedOf, KeyedKey, KeyedValue)
  {
    forall k | k in tree ensures KeyedKey(KeyedOf(k, tree[k]).value) == k {
      assert k[..32] == k;
    }
  }

  // ------------------------------------------------------------- blocks

  /** `get_block_by_height`. */
  function GetBlock(codec: Codec, t: Trees, height: nat): Result<Option<Block>, Error> {
    var key := ToBE(height, 8);
    if key !in t.blocksByHeight then Ok(None)
    else if t.blocksByHeight[key] !in t.blocksByHash then Err(Corrupted)
    else match codec.decode(t.blocksByHash[t.blocksByHeight[key]])
      case None => Err(Serialization)
      case Some(b) => Ok(Some(b))
  }

  function LatestHeight(t: Trees): Result<nat, Error> {
    if LATEST_HEIGHT !in t.meta then Err(NotInitialized)
    else if |t.meta[LATEST_HEIGHT]| != 8 then Err(Corrupted)
    else Ok(FromBE(t.meta[LATEST_HEIGHT]))
  }

  /** The entries of the blocks below height `n`. */
  function BlocksBelow(codec: Codec, t: Trees, n: nat): Result<seq<BlockEntry>, Error> {
    if n == 0 then Ok([])
    else match BlocksBelow(codec, t, n - 1)
      case Err(e) => Err(e)
      case Ok(front) =>
        match GetBlock(codec, t, n - 1)
        case Err(e) => Err(e)
        case Ok(None) => Ok(front)
        case Ok(Some(b)) => Ok(front + [BlockEntry(n - 1, codec.encode(b))])
  }

  method CollectBlocks(codec: Codec, t: Trees, upTo: nat) returns (r: Result<seq<BlockEntry>, Error>)
    ensures r == BlocksBelow(codec, t, upTo + 1)
  {
    r := Ok([]);
    for h := 0 to upTo + 1
      invariant r.Ok? && r == BlocksBelow(codec, t, h)
    {
      match GetBlock(codec, t, h) {
        case Err(e) =>
          r := Err(e);
          BlocksBelowFails(codec, t, h + 1, upTo + 1);
          return;
        case Ok(None) =>
        case Ok(Some(b)) => r := Ok(r.value + [BlockEntry(h, codec.encode(b))]);
      }
    }
  }

  lemma {:induction false} BlocksBelowFails(codec: Codec, t: Trees, n: nat, m: nat)
    requires n <= m && BlocksBelow(codec, t, n).Err?
    ensures BlocksBelow(codec, t, m) == BlocksBelow(codec, t, n)
    decreases m
  {
    if n < m {
      BlocksBelowFails(codec, t, n, m - 1);
    }
  }

  /** The block trees as a restore fills them, up to the first entry that does not decode. */
  datatype BlockTrees = BlockTrees(byHeight: Tree, byHash: Tree, failed: bool)

  function RestoredBlocks(codec: Codec, es: seq<BlockEntry>): BlockTrees {
    if es == [] then BlockTrees(map[], map[], false)
    else
      var p := RestoredBlocks(codec, es[..|es| - 1]);
      var e := es[|es| - 1];
      if p.failed then p
      else match codec.decode(e.data)
        case None => p.(failed := true)
        case Some(b) => BlockTrees(p.byHeight[ToBE(e.height, 8) := b.blockHash], p.byHash[b.blockHash := e.data], false)
  }

  // ------------------------------------------------------------- state hash

  function BlockBytes(e: BlockEntry): Bytes { ToBE(e.height, 8) + e.data }
  function UtxoBytes(e: UtxoEntry): Bytes { e.txHash + ToBE(e.index, 4) + e.data }
  function BalanceBytes(e: BalanceEntry): Bytes { Join(e.token, e.address) + ToBE(e.balance, 16) }
  function KeyedBytes(e: KeyedEntry): Bytes { Join(e.key, e.data) }

  function Flat<E>(es: seq<E>, bytesOf: E -> Bytes): Bytes {
    if es == [] then [] else Flat(es[..|es| - 1], bytesOf) + bytesOf(es[|es| - 1])
  }

  method AppendAll<E>(data: Bytes, es: seq<E>, bytesOf: E -> Bytes) returns (r: Bytes)
    ensures r == data + Flat(es, bytesOf)
  {
    r := data;
    for i := 0 to |es|
      invariant r == data + Flat(es[..i], bytesOf)
    {
      assert es[..i + 1][..i] == es[..i];
      r := r + bytesOf(es[i]);
    }
    assert es[..|es|] == es;
  }

  /** What the state hash is taken of. */
  function Preimage(s: Snap): Bytes {
    ToBE(s.height, 8) + s.blockHash
    + Flat(s.blocks, BlockBytes)
    + Flat(SortBy(UtxoSortKey, s.utxos), UtxoBytes)
    + Flat(SortBy(BalanceSortKey, s.balances), BalanceBytes)
    + Flat(SortBy(KeyedSortKey, s.accounts), KeyedBytes)
    + Flat(SortBy(KeyedSortKey, s.identities), KeyedBytes)
  }

  method ComputeStateHash(blake3: Bytes -> Hash, s: Snap) returns (h: Hash)
    ensures h == blake3(Preimage(s))
    ensures h == blake3(
                   ToBE(s.height, 8) + s.blockHash + Flat(s.blocks, BlockBytes)
                   + Flat(SortBy(UtxoSortKey, s.utxos), UtxoBytes)
                   + Flat(SortBy(BalanceSortKey, s.balances), BalanceBytes)
                   + Flat(SortBy(KeyedSortKey, s.accounts), KeyedBytes)
                   + Flat(SortBy(KeyedSortKey, s.identities), KeyedBytes))
  {
    var data: Bytes := ToBE(s.height, 8) + s.blockHash;
    data := AppendAll(data, s.blocks, BlockBytes);
    data := AppendAll(data, SortBy(UtxoSortKey, s.utxos), UtxoBytes);
    data := AppendAll(data, SortBy(BalanceSortKey, s.balances), BalanceBytes);
    data := AppendAll(data, SortBy(KeyedSortKey, s.accounts), KeyedBytes);
    data := AppendAll(data, SortBy(KeyedSortKey, s.identities), KeyedBytes);
    h := blake3(data);
  }

  ghost predicate UniqueEntries(s: Snap) {
    && UniqueKeys(UtxoSortKey, s.utxos) && UniqueKeys(BalanceSortKey, s.balances)
    && UniqueKeys(KeyedSortKey, s.accounts) && UniqueKeys(KeyedSortKey, s.identities)
  }

  /** The two snapshots hold the same entries, in whatever order. */
  ghost predicate SameEntries(s: Snap, s': Snap) {
    && s.height == s'.height && s.blockHash == s'.blockHash && s.blocks == s'.blocks
    && SameElements(s.utxos, s'.utxos) && SameElements(s.balances, s'.balances)
    && SameElements(s.accounts, s'.accounts) && SameElements(s.identities, s'.identities)
  }

  /** The state hash does not depend on the order of entries. */
  lemma {:induction false} PreimageCanonical(s: Snap, s': Snap)
    requires SameEntries(s, s') && UniqueEntries(s) && UniqueEntries(s')
    ensures Preimage(s) == Preimage(s')
  {
    SortCanonical(UtxoSortKey, s.utxos, s'.utxos);
    SortCanonical(BalanceSortKey, s.balances, s'.balances);
    SortCanonical(KeyedSortKey, s.accounts, s'.accounts);
    SortCanonical(KeyedSortKey, s.identities, s'.identities);
  }

  // ------------------------------------------------------------- snapshot and restore

  /** The order in which each tree was visited. */
  datatype Orders = Orders(utxos: seq<Bytes>, balances: seq<Bytes>, accounts: seq<Bytes>, identities: seq<Bytes>)

  ghost predicate VisitsAll(t: Trees, o: Orders) {
    && Visits(t.utxos, o.utxos) && Visits(t.tokenBalances, o.balances)
    && Visits(t.accounts, o.accounts) && Visits(t.identities, o.identities)
  }

  /** The entries of a snapshot, before its hash is set. */
  function Collected(t: Trees, height: nat, blockHash: Hash, blocks: seq<BlockEntry>, now: nat, o: Orders): Snap {
    Snap(VERSION, height, blockHash, ZERO_HASH, now, blocks,
         CollectFrom(t.utxos, o.utxos, UtxoOf), CollectFrom(t.tokenBalances, o.balances, BalanceOf),
         CollectFrom(t.accounts, o.accounts, KeyedOf), CollectFrom(t.identities, o.identities, KeyedOf))
  }

  function WithHash(blake3: Bytes -> Hash, s: Snap): Snap {
    s.(stateHash := blake3(Preimage(s)))
  }

  function SnapshotOf(codec: Codec, blake3: Bytes -> Hash, t: Trees, now: nat, o: Orders): Result<Snap, Error> {
    match LatestHeight(t)
    case Err(e) => Err(e)
    case Ok(height) =>
      match GetBlock(codec, t, height)
      case Err(e) => Err(e)
      case Ok(None) => Err(HeightNotFound)
      case Ok(Some(tip)) =>
        match BlocksBelow(codec, t, height + 1)
        case Err(e) => Err(e)
        case Ok(blocks) => Ok(WithHash(blake3, Collected(t, height, tip.blockHash, blocks, now, o)))
  }

  predicate Restorable(blake3: Bytes -> Hash, s: Snap) {
    MIN_VERSION <= s.version <= VERSION && s.stateHash == blake3(Preimage(s))
  }

  const EMPTY: Trees := Trees(map[], map[], map[], map[], map[], map[], map[])

  /** The trees after a restore that passed its checks: whatever was there is gone. */
  function Restored(codec: Codec, s: Snap): Trees {
    var p := RestoredBlocks(codec, s.blocks);
    if p.failed then EMPTY.(blocksByHeight := p.byHeight, blocksByHash := p.byHash)
    else Trees(p.byHeight, p.byHash,
               Inserted(map[], s.utxos, UtxoKey, UtxoValue),
               Inserted(map[], s.accounts, KeyedKey, KeyedValue),
               Inserted(map[], s.balances, BalanceKey, BalanceValue),
               Inserted(map[], s.identities, KeyedKey, KeyedValue),
               map[LATEST_HEIGHT := ToBE(s.height, 8)])
  }

  class SledStore {
    var blocksByHeight: Tree
    var blocksByHash: Tree
    var utxos: Tree
    var accounts: Tree
    var tokenBalances: Tree
    var identities: Tree
    var meta: Tree

    function View(): Trees
      reads this
    {
      Trees(blocksByHeight, blocksByHash, utxos, accounts, tokenBalances, identities, meta)
    }

    method TakeSnapshot(codec: Codec, blake3: Bytes -> Hash, now: nat) returns (r: Result<Snap, Error>, ghost o: Orders)
      ensures r == SnapshotOf(codec, blake3, View(), now, o)
      ensures r.Ok? ==> VisitsAll(View(), o)
    {
      o := Orders([], [], [], []);
      var t := View();
      var height := LatestHeight(t);
      if height.Err? {
        return Err(height.error), o;
      }
      var tip := GetBlock(codec, t, height.value);
      if tip.Err? {
        return Err(tip.error), o;
      }
      if tip.value == None {
        return Err(HeightNotFound), o;
      }
      var blocks := CollectBlocks(codec, t, height.value);
      if blocks.Err? {
        return Err(blocks.error), o;
      }
      var us, uo := Collect(utxos, UtxoOf);
      var bs, bo := Collect(tokenBalances, BalanceOf);
      var accs, ao := Collect(accounts, KeyedOf);
      var ids, io := Collect(identities, KeyedOf);
      o := Orders(uo, bo, ao, io);
      var snap := Snap(VERSION, height.value, tip.value.value.blockHash, ZERO_HASH, now,
                       blocks.value, us, bs, accs, ids);
      var h := ComputeStateHash(blake3, snap);
      r := Ok(snap.(stateHash := h));
    }

    method ClearAllTrees()
      modifies this
      ensures View() == EMPTY
    {
      blocksByHeight, blocksByHash, utxos, accounts := map[], map[], map[], map[];
      tokenBalances, identities, meta := map[], map[], map[];
    }

    method RestoreBlocks(codec: Codec, es: seq<BlockEntry>) returns (ok: bool)
      requires blocksByHeight == map[] && blocksByHash == map[]
      modifies `blocksByHeight, `blocksByHash
      ensures RestoredBlocks(codec, es) == BlockTrees(blocksByHeight, blocksByHash, !ok)
    {
      for i := 0 to |es|
        invariant RestoredBlocks(codec, es[..i]) == BlockTrees(blocksByHeight, blocksByHash, false)
      {
        assert es[..i + 1][..i] == es[..i];
        var b := codec.decode(es[i].data);
        if b == None {
          RestoredBlocksFailed(codec, es, i + 1);
          return false;
        }
        blocksByHeight := blocksByHeight[ToBE(es[i].height, 8) := b.value.blockHash];
        blocksByHash := blocksByHash[b.value.blockHash := es[i].data];
      }
      assert es[..|es|] == es;
      return true;
    }

    method Restore(codec: Codec, blake3: Bytes -> Hash, s: Snap) returns (r: Result<(), Error>)
      modifies this
      ensures !Restorable(blake3, s) ==> View() == old(View())
      ensures Restorable(blake3, s) ==> View() == Restored(codec, s)
      ensures r == Err(InvalidVersion) || r == Err(HashMismatch) ==> View() == old(View())
      ensures r == if s.version < 1 || s.version > 2 then Err(InvalidVersion)
                   else if s.stateHash != blake3(Preimage(s)) then Err(HashMismatch)
                   else if RestoredBlocks(codec, s.blocks).failed then Err(Serialization)
                   else Ok(())
    {
      if s.version < MIN_VERSION || s.version > VERSION {
        return Err(InvalidVersion);
      }
      var h := ComputeStateHash(blake3, s);
      if s.stateHash != h {
        return Err(HashMismatch);
      }
      ClearAllTrees();
      var ok := RestoreBlocks(codec, s.blocks);
      if !ok {
        return Err(Serialization);
      }
      utxos := InsertAll(utxos, s.utxos, UtxoKey, UtxoValue);
      tokenBalances := InsertAll(tokenBalances, s.balances, BalanceKey, BalanceValue);
      accounts := InsertAll(accounts, s.accounts, KeyedKey, KeyedValue);
      if s.identities != [] {
        identities := InsertAll(identities, s.identities, KeyedKey, KeyedValue);
      }
      meta := meta[LATEST_HEIGHT := ToBE(s.height, 8)];
      return Ok(());
    }
  }

  lemma {:induction false} RestoredBlocksFailed(codec: Codec, es: seq<BlockEntry>, i: nat)
    requires i <= |es| && RestoredBlocks(codec, es[..i]).failed
    ensures RestoredBlocks(codec, es) == RestoredBlocks(codec, es[..i])
    decreases |es|
  {
    if i == |es| {
      assert es[..i] == es;
    } else {
      assert es[..|es| - 1][..i] == es[..i];
      RestoredBlocksFailed(codec, es[..|es| - 1], i);
    }
  }
}
