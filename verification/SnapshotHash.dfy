/** What the state hash of a snapshot covers: entries of the same shape cannot change unnoticed. */
module SnapshotHash {
  import opened Common
  import opened KeySort
  import opened Snapshot
  import opened Sorting

  // ------------------------------------------------------------- one list of entries

  /** Both lists have as many entries, of the same encoded lengths. */
  ghost predicate SameLayout<E>(a: seq<E>, b: seq<E>, bytesOf: E -> Bytes) {
    |a| == |b| && forall i :: 0 <= i < |a| ==> |bytesOf(a[i])| == |bytesOf(b[i])|
  }

  /** The encoding tells any two entries apart whose integers fit their width. */
  ghost predicate OneToOne<E(!new)>(bytesOf: E -> Bytes, fits: E -> bool) {
    forall x, y :: fits(x) && fits(y) && bytesOf(x) == bytesOf(y) ==> x == y
  }

  lemma {:induction false} FlatLength<E>(a: seq<E>, b: seq<E>, bytesOf: E -> Bytes)
    requires SameLayout(a, b, bytesOf)
    ensures |Flat(a, bytesOf)| == |Flat(b, bytesOf)|
    decreases |a|
  {
    if a != [] {
      FlatLength(a[..|a| - 1], b[..|b| - 1], bytesOf);
    }
  }

  /** Laid out alike, two lists with the same bytes are the same list. */
  lemma {:induction false} FlatCovers<E(!new)>(a: seq<E>, b: seq<E>, bytesOf: E -> Bytes, fits: E -> bool)
    requires SameLayout(a, b, bytesOf) && OneToOne(bytesOf, fits)
    requires (forall x :: x in a ==> fits(x)) && (forall x :: x in b ==> fits(x))
    requires Flat(a, bytesOf) == Flat(b, bytesOf)
    ensures a == b
    decreases |a|
  {
    if a != [] {
      var fa, fb, x, y := a[..|a| - 1], b[..|b| - 1], a[|a| - 1], b[|b| - 1];
      FlatLast(a, b, bytesOf);
      assert x in a && y in b && fits(x) && fits(y);
      FlatCovers(fa, fb, bytesOf, fits);
      assert a == fa + [x] && b == fb + [y];
    }
  }

  lemma {:induction false} FlatLast<E>(a: seq<E>, b: seq<E>, bytesOf: E -> Bytes)
    requires SameLayout(a, b, bytesOf) && a != [] && Flat(a, bytesOf) == Flat(b, bytesOf)
    ensures SameLayout(a[..|a| - 1], b[..|b| - 1], bytesOf)
    ensures Flat(a[..|a| - 1], bytesOf) == Flat(b[..|b| - 1], bytesOf)
    ensures bytesOf(a[|a| - 1]) == bytesOf(b[|b| - 1])
  {
    var fa, fb := a[..|a| - 1], b[..|b| - 1];
    FlatLength(fa, fb, bytesOf);
    JoinInjective(Flat(fa, bytesOf), bytesOf(a[|a| - 1]), Flat(fb, bytesOf), bytesOf(b[|b| - 1]));
  }

  // ------------------------------------------------------------- the entry types

  predicate BlockFits(e: BlockEntry) { e.height < Radix(8) }
  predicate UtxoFits(e: UtxoEntry) { e.index < Radix(4) }
  predicate BalanceFits(e: BalanceEntry) { e.balance < Radix(16) }
  predicate KeyedFits(e: KeyedEntry) { true }

  lemma {:induction false} SameBE(m: nat, n: nat, w: nat)
    requires m < Radix(w) && n < Radix(w) && ToBE(m, w) == ToBE(n, w)
    ensures m == n
  {
    FromToBE(m, w);
    FromToBE(n, w);
  }

  lemma {:induction false} BlocksOneToOne()
    ensures OneToOne(BlockBytes, BlockFits)
  {
    forall x, y | BlockFits(x) && BlockFits(y) && BlockBytes(x) == BlockBytes(y) ensures x == y {
      JoinInjective(ToBE(x.height, 8), x.data, ToBE(y.height, 8), y.data);
      SameBE(x.height, y.height, 8);
    }
  }

  lemma {:induction false} UtxosOneToOne()
    ensures OneToOne(UtxoBytes, UtxoFits)
  {
    forall x, y | UtxoFits(x) && UtxoFits(y) && UtxoBytes(x) == UtxoBytes(y) ensures x == y {
      JoinInjective(x.txHash + ToBE(x.index, 4), x.data, y.txHash + ToBE(y.index, 4), y.data);
      JoinInjective(x.txHash, ToBE(x.index, 4), y.txHash, ToBE(y.index, 4));
      SameBE(x.index, y.index, 4);
    }
  }

  lemma {:induction false} BalancesOneToOne()
    ensures OneToOne(BalanceBytes, BalanceFits)
  {
    forall x, y | BalanceFits(x) && BalanceFits(y) && BalanceBytes(x) == BalanceBytes(y) ensures x == y {
      JoinInjective(x.token + x.address, ToBE(x.balance, 16), y.token + y.address, ToBE(y.balance, 16));
      JoinInjective(x.token, x.address, y.token, y.address);
      SameBE(x.balance, y.balance, 16);
    }
  }

  lemma {:induction false} KeyedOneToOne()
    ensures OneToOne(KeyedBytes, KeyedFits)
  {
    forall x, y | KeyedFits(x) && KeyedFits(y) && KeyedBytes(x) == KeyedBytes(y) ensures x == y {
      JoinInjective(x.key, x.data, y.key, y.data);
    }
  }

  // ------------------------------------------------------------- the whole preimage

  /** Both lists, once sorted, have the same layout. */
  ghost predicate SameSortedLayout<E>(key: E -> Key, a: seq<E>, b: seq<E>, bytesOf: E -> Bytes) {
    SameLayout(SortBy(key, a), SortBy(key, b), bytesOf)
  }

  /** The same number of entries of each kind, with the same data lengths in hashing order. */
  ghost predicate SameShape(s: Snap, s': Snap) {
    && SameLayout(s.blocks, s'.blocks, BlockBytes)
    && SameSortedLayout(UtxoSortKey, s.utxos, s'.utxos, UtxoBytes)
    && SameSortedLayout(BalanceSortKey, s.balances, s'.balances, BalanceBytes)
    && SameSortedLayout(KeyedSortKey, s.accounts, s'.accounts, KeyedBytes)
    && SameSortedLayout(KeyedSortKey, s.identities, s'.identities, KeyedBytes)
  }

  /** Heights, output indices and balances fit their widths in the source. */
  predicate Fits(s: Snap) {
    && s.height < Radix(8)
    && (forall e :: e in s.blocks ==> BlockFits(e))
    && (forall e :: e in s.utxos ==> UtxoFits(e))
    && (forall e :: e in s.balances ==> BalanceFits(e))
  }

  /** As `FlatCovers`, for lists that are sorted before they are hashed. */
  lemma {:induction false} SortedCovers<E(!new)>(key: E -> Key, a: seq<E>, b: seq<E>,
                                                 bytesOf: E -> Bytes, fits: E -> bool)
    requires SameSortedLayout(key, a, b, bytesOf) && OneToOne(bytesOf, fits)
    requires (forall x :: x in a ==> fits(x)) && (forall x :: x in b ==> fits(x))
    requires Flat(SortBy(key, a), bytesOf) == Flat(SortBy(key, b), bytesOf)
    ensures SameElements(a, b)
  {
    var sa, sb := SortBy(key, a), SortBy(key, b);
    forall x ensures (x in sa <==> x in a) && (x in sb <==> x in b) {
      SortMembers(Before(key), a, x);
      SortMembers(Before(key), b, x);
    }
    FlatCovers(sa, sb, bytesOf, fits);
  }

  lemma {:induction false} PeelLast(l: Bytes, r: Bytes, l': Bytes, r': Bytes)
    requires |r| == |r'| && l + r == l' + r'
    ensures l == l' && r == r'
  {
    JoinInjective(l, r, l', r');
  }

  function UtxoSection(s: Snap): Bytes { Flat(SortBy(UtxoSortKey, s.utxos), UtxoBytes) }
  function BalanceSection(s: Snap): Bytes { Flat(SortBy(BalanceSortKey, s.balances), BalanceBytes) }
  function KeyedSection(es: seq<KeyedEntry>): Bytes { Flat(SortBy(KeyedSortKey, es), KeyedBytes) }

  /** Equal preimages of the same shape agree section by section. */
  lemma {:induction false} SectionsAgree(s: Snap, s': Snap)
    requires SameShape(s, s') && Preimage(s) == Preimage(s')
    ensures ToBE(s.height, 8) == ToBE(s'.height, 8) && s.blockHash == s'.blockHash
    ensures Flat(s.blocks, BlockBytes) == Flat(s'.blocks, BlockBytes)
    ensures UtxoSection(s) == UtxoSection(s') && BalanceSection(s) == BalanceSection(s')
    ensures KeyedSection(s.accounts) == KeyedSection(s'.accounts)
    ensures KeyedSection(s.identities) == KeyedSection(s'.identities)
  {
    FlatLength(s.blocks, s'.blocks, BlockBytes);
    FlatLength(SortBy(UtxoSortKey, s.utxos), SortBy(UtxoSortKey, s'.utxos), UtxoBytes);
    FlatLength(SortBy(BalanceSortKey, s.balances), SortBy(BalanceSortKey, s'.balances), BalanceBytes);
    FlatLength(SortBy(KeyedSortKey, s.accounts), SortBy(KeyedSortKey, s'.accounts), KeyedBytes);
    FlatLength(SortBy(KeyedSortKey, s.identities), SortBy(KeyedSortKey, s'.identities), KeyedBytes);
    var h, h' := ToBE(s.height, 8) + s.blockHash, ToBE(s'.height, 8) + s'.blockHash;
    var b, b' := h + Flat(s.blocks, BlockBytes), h' + Flat(s'.blocks, BlockBytes);
    var u, u' := b + UtxoSection(s), b' + UtxoSection(s');
    var t, t' := u + BalanceSection(s), u' + BalanceSection(s');
    var a, a' := t + KeyedSection(s.accounts), t' + KeyedSection(s'.accounts);
    PeelLast(a, KeyedSection(s.identities), a', KeyedSection(s'.identities));
    PeelLast(t, KeyedSection(s.accounts), t', KeyedSection(s'.accounts));
    PeelLast(u, BalanceSection(s), u', BalanceSection(s'));
    PeelLast(b, UtxoSection(s), b', UtxoSection(s'));
    PeelLast(h, Flat(s.blocks, BlockBytes), h', Flat(s'.blocks, BlockBytes));
    PeelLast(ToBE(s.height, 8), s.blockHash, ToBE(s'.height, 8), s'.blockHash);
  }

  /** Every part of a snapshot is covered by its state hash: two snapshots of the same shape with the
      same preimage have the same height, block hash and blocks, and the same outputs, balances,
      accounts and identities up to order. */
  lemma {:induction false} PreimageCovers(s: Snap, s': Snap)
    requires SameShape(s, s') && Fits(s) && Fits(s')
    requires Preimage(s) == Preimage(s')
    ensures SameEntries(s, s')
  {
    SectionsAgree(s, s');
    SameBE(s.height, s'.height, 8);
    BlocksOneToOne();
    FlatCovers(s.blocks, s'.blocks, BlockBytes, BlockFits);
    UtxosOneToOne();
    SortedCovers(UtxoSortKey, s.utxos, s'.utxos, UtxoBytes, UtxoFits);
    BalancesOneToOne();
    SortedCovers(BalanceSortKey, s.balances, s'.balances, BalanceBytes, BalanceFits);
    KeyedOneToOne();
    SortedCovers(KeyedSortKey, s.accounts, s'.accounts, KeyedBytes, KeyedFits);
    SortedCovers(KeyedSortKey, s.identities, s'.identities, KeyedBytes, KeyedFits);
  }

  /** The shape does matter: there are no section lengths in the preimage, so an only account and an
      only identity with the same bytes hash alike. */
  lemma {:induction false} ShapeMatters(s: Snap, e: KeyedEntry)
    ensures Preimage(s.(accounts := [e], identities := [])) == Preimage(s.(accounts := [], identities := [e]))
    ensures !SameEntries(s.(accounts := [e], identities := []), s.(accounts := [], identities := [e]))
  {
    var before := Before(KeyedSortKey);
    assert [e][..0] == [] && Sort(before, []) == [];
    assert Sort(before, [e]) == Insert(before, Sort(before, []), e) == [e];
    assert e in [e];
  }
}
