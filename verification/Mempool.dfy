/** The pool of pending transactions and the greedy choice of a block's transactions. Fee rates are
    compared as exact ratios. */
module Mempool {
  import opened Common
  import opened Sorting

  /** A pending transaction; its size in bytes is never zero. */
  datatype Tx = Tx(hash: Hash, fee: nat, size: nat)

  datatype Error =
    | TransactionExists | InvalidTransaction | InvalidSignature | InvalidProof | DoubleSpend
    | InsufficientFee | MempoolEmpty

  /** What the transaction validator finds wrong. */
  datatype Invalidity = SpentTwice | BadSignature | BadZkProof | Otherwise

  /** The pool's error for it. */
  function Refusal(why: Invalidity): Error {
    match why
    case SpentTwice => DoubleSpend
    case BadSignature => InvalidSignature
    case BadZkProof => InvalidProof
    case Otherwise => InvalidTransaction
  }

  /** `a`'s fee per byte is at least `b`'s. */
  predicate RateGeq(a: Tx, b: Tx) {
    a.fee * b.size >= b.fee * a.size
  }

  lemma {:induction false} RateGeqTransitive(a: Tx, b: Tx, c: Tx)
    requires b.size > 0 && RateGeq(a, b) && RateGeq(b, c)
    ensures RateGeq(a, c)
  {
    MulMono(b.fee * a.size, a.fee * b.size, c.size);
    MulMono(c.fee * b.size, b.fee * c.size, a.size);
    assert a.fee * c.size * b.size == a.fee * b.size * c.size;
    assert c.fee * a.size * b.size == c.fee * b.size * a.size;
    assert b.fee * a.size * c.size == b.fee * c.size * a.size;
    if a.fee * c.size < c.fee * a.size {
      MulStrict(a.fee * c.size, c.fee * a.size, b.size);
    }
  }

  lemma {:induction false} MulMono(x: nat, y: nat, k: nat)
    requires x <= y
    ensures x * k <= y * k
  {}

  lemma {:induction false} MulStrict(x: nat, y: nat, k: nat)
    requires x < y && k > 0
    ensures x * k < y * k
  {}

  // ------------------------------------------------------------- selection

  function TotalSize(txs: seq<Tx>): nat {
    if txs == [] then 0 else TotalSize(txs[..|txs| - 1]) + txs[|txs| - 1].size
  }

  /** The transactions of `txs` whose rate is at least `t`'s. */
  function AtLeast(txs: seq<Tx>, t: Tx): seq<Tx> {
    if txs == [] then []
    else if RateGeq(txs[|txs| - 1], t) then AtLeast(txs[..|txs| - 1], t) + [txs[|txs| - 1]]
    else AtLeast(txs[..|txs| - 1], t)
  }

  /** Nothing at a later position pays a better rate. */
  predicate ByRate(txs: seq<Tx>) {
    forall i, j :: 0 <= i < j < |txs| ==> RateGeq(txs[i], txs[j])
  }

  /** Leaving `t` out is justified: the block is full of transactions that pay at least as well, or
      those that do leave no room for it. */
  predicate Justified(selected: seq<Tx>, t: Tx, maxCount: nat, maxSize: nat) {
    || (|selected| == maxCount && forall s :: s in selected ==> RateGeq(s, t))
    || TotalSize(AtLeast(selected, t)) + t.size > maxSize
  }

  lemma {:induction false} AtLeastAll(txs: seq<Tx>, t: Tx)
    requires forall s :: s in txs ==> RateGeq(s, t)
    ensures AtLeast(txs, t) == txs
    decreases |txs|
  {
    if txs != [] {
      assert txs[|txs| - 1] in txs;
      AtLeastAll(txs[..|txs| - 1], t);
    }
  }

  lemma {:induction false} AtLeastGrows(txs: seq<Tx>, x: Tx, t: Tx)
    ensures TotalSize(AtLeast(txs + [x], t)) >= TotalSize(AtLeast(txs, t))
  {
    assert (txs + [x])[..|txs|] == txs;
    var a := AtLeast(txs, t);
    assert (a + [x])[..|a|] == a;
  }

  /** Every transaction among the first `i` that was not taken is one there was no room for. */
  predicate NoRoom(order: seq<Tx>, i: nat, selected: seq<Tx>, maxSize: nat)
    requires i <= |order|
  {
    forall k :: 0 <= k < i && order[k] !in selected ==>
      TotalSize(AtLeast(selected, order[k])) + order[k].size > maxSize
  }

  lemma {:induction false} NoRoomTake(order: seq<Tx>, i: nat, selected: seq<Tx>, maxSize: nat)
    requires i < |order| && NoRoom(order, i, selected, maxSize)
    ensures NoRoom(order, i + 1, selected + [order[i]], maxSize)
  {
    forall k | 0 <= k < i && order[k] !in selected
      ensures TotalSize(AtLeast(selected + [order[i]], order[k])) + order[k].size > maxSize
    {
      AtLeastGrows(selected, order[i], order[k]);
    }
  }

  lemma {:induction false} NoRoomSkip(order: seq<Tx>, i: nat, selected: seq<Tx>, maxSize: nat)
    requires i < |order| && ByRate(order) && NoRoom(order, i, selected, maxSize)
    requires forall s :: s in selected ==> s in order[..i]
    requires TotalSize(selected) + order[i].size > maxSize
    ensures NoRoom(order, i + 1, selected, maxSize)
  {
    forall s | s in selected ensures RateGeq(s, order[i]) {
      var k :| 0 <= k < i && order[..i][k] == s;
      assert RateGeq(order[k], order[i]);
    }
    AtLeastAll(selected, order[i]);
  }

  lemma {:induction false} ByRateSnoc(order: seq<Tx>, i: nat, selected: seq<Tx>)
    requires i < |order| && ByRate(order) && ByRate(selected) && forall s :: s in selected ==> s in order[..i]
    ensures ByRate(selected + [order[i]])
  {
    forall s | s in selected ensures RateGeq(s, order[i]) {
      var k :| 0 <= k < i && order[..i][k] == s;
      assert RateGeq(order[k], order[i]);
    }
  }

  /** What holds after the first `i` transactions. */
  predicate Selecting(order: seq<Tx>, i: nat, selected: seq<Tx>, maxSize: nat)
    requires i <= |order|
  {
    && TotalSize(selected) <= maxSize && Distinct(selected) && ByRate(selected)
    && (forall s :: s in selected ==> s in order[..i])
    && NoRoom(order, i, selected, maxSize)
  }

  lemma {:induction false} SelectingTake(order: seq<Tx>, i: nat, selected: seq<Tx>, maxSize: nat)
    requires i < |order| && ByRate(order) && Distinct(order) && Selecting(order, i, selected, maxSize)
    requires TotalSize(selected) + order[i].size <= maxSize
    ensures TotalSize(selected + [order[i]]) == TotalSize(selected) + order[i].size
    ensures Selecting(order, i + 1, selected + [order[i]], maxSize)
  {
    NoRoomTake(order, i, selected, maxSize);
    ByRateSnoc(order, i, selected);
    assert order[i] !in order[..i];
    assert (selected + [order[i]])[..|selected|] == selected;
  }

  lemma {:induction false} SelectingSkip(order: seq<Tx>, i: nat, selected: seq<Tx>, maxSize: nat)
    requires i < |order| && ByRate(order) && Selecting(order, i, selected, maxSize)
    requires TotalSize(selected) + order[i].size > maxSize
    ensures Selecting(order, i + 1, selected, maxSize)
  {
    NoRoomSkip(order, i, selected, maxSize);
  }

  lemma {:induction false} SelectedJustified(order: seq<Tx>, i: nat, selected: seq<Tx>, maxCount: nat, maxSize: nat,
                                             t: Tx)
    requires i <= |order| && ByRate(order) && Selecting(order, i, selected, maxSize)
    requires i == |order| || |selected| == maxCount
    requires t in order && t !in selected
    ensures Justified(selected, t, maxCount, maxSize)
  {
    var k :| 0 <= k < |order| && order[k] == t;
    if k >= i {
      forall s | s in selected ensures RateGeq(s, t) {
        var j :| 0 <= j < i && order[..i][j] == s;
        assert RateGeq(order[j], order[k]);
      }
    }
  }

  /** The selection loop over transactions sorted by rate. */
  method SelectFrom(order: seq<Tx>, maxCount: nat, maxSize: nat) returns (selected: seq<Tx>)
    requires ByRate(order) && Distinct(order)
    ensures |selected| <= maxCount && TotalSize(selected) <= maxSize
    ensures Distinct(selected) && forall s :: s in selected ==> s in order
    ensures ByRate(selected)
    ensures forall t :: t in order && t !in selected ==> Justified(selected, t, maxCount, maxSize)
  {
    selected := [];
    var totalSize := 0;
    var i := 0;
    while i < |order|
      invariant 0 <= i <= |order|
      invariant |selected| <= maxCount && totalSize == TotalSize(selected)
      invariant Selecting(order, i, selected, maxSize)
    {
      if |selected| >= maxCount {
        break;
      }
      if totalSize + order[i].size > maxSize {
        SelectingSkip(order, i, selected, maxSize);
      } else {
        SelectingTake(order, i, selected, maxSize);
        selected := selected + [order[i]];
        totalSize := totalSize + order[i].size;
      }
      i := i + 1;
    }
    forall t | t in order && t !in selected ensures Justified(selected, t, maxCount, maxSize) {
      SelectedJustified(order, i, selected, maxCount, maxSize, t);
    }
  }

  predicate PaysMore(x: Tx, y: Tx) {
    !RateGeq(y, x)
  }

  /** A stable sort by fee rate, best first. */
  function SortByRate(txs: seq<Tx>): seq<Tx> {
    Sort(PaysMore, txs)
  }

  predicate Sized(txs: seq<Tx>) {
    forall t :: t in txs ==> t.size > 0
  }

  lemma {:induction false} SameMembers(s: seq<Tx>, t: seq<Tx>, x: Tx)
    requires multiset(s) == multiset(t)
    ensures x in s <==> x in t
  {
    assert x in s <==> x in multiset(s);
    assert x in t <==> x in multiset(t);
  }

  /** `head` pays at least as well as everything in `s`. */
  predicate Leads(head: Tx, s: seq<Tx>) {
    forall y :: y in s ==> RateGeq(head, y)
  }

  lemma {:induction false} ByRateCons(head: Tx, s: seq<Tx>)
    requires ByRate(s) && Leads(head, s)
    ensures ByRate([head] + s)
  {
    var r := [head] + s;
    forall i, j | 0 <= i < j < |r| ensures RateGeq(r[i], r[j]) {
      assert r[j] == s[j - 1];
    }
  }

  lemma {:induction false} LeadsAll(x: Tx, s: seq<Tx>)
    requires s != [] && ByRate(s) && Sized(s) && RateGeq(x, s[0])
    ensures Leads(x, s)
  {
    forall y | y in s ensures RateGeq(x, y) {
      var i :| 0 <= i < |s| && s[i] == y;
      if i > 0 {
        RateGeqTransitive(x, s[0], y);
      }
    }
  }

  lemma {:induction false} InsertByRateSorted(s: seq<Tx>, x: Tx)
    requires ByRate(s) && Sized(s)
    ensures ByRate(Insert(PaysMore, s, x))
    decreases |s|
  {
    if s != [] {
      if !RateGeq(s[0], x) {
        LeadsAll(x, s);
        ByRateCons(x, s);
      } else {
        var rest := Insert(PaysMore, s[1..], x);
        InsertByRateSorted(s[1..], x);
        InsertPermutes(PaysMore, s[1..], x);
        forall y | y in rest ensures RateGeq(s[0], y) {
          SameMembers(rest, s[1..] + [x], y);
        }
        ByRateCons(s[0], rest);
      }
    }
  }

  lemma {:induction false} SortByRateSorted(txs: seq<Tx>)
    requires Sized(txs)
    ensures ByRate(SortByRate(txs))
    decreases |txs|
  {
    if txs != [] {
      var front := txs[..|txs| - 1];
      SortByRateSorted(front);
      SortPermutes(PaysMore, front);
      forall t | t in SortByRate(front) ensures t.size > 0 {
        SameMembers(SortByRate(front), front, t);
      }
      InsertByRateSorted(SortByRate(front), txs[|txs| - 1]);
    }
  }

  lemma {:induction false} DistinctCount(s: seq<Tx>)
    ensures Distinct(s) <==> forall x :: x in s ==> multiset(s)[x] == 1
    decreases |s|
  {
    if s != [] {
      var front, last := s[..|s| - 1], s[|s| - 1];
      DistinctCount(front);
      assert s == front + [last];
      assert last in s;
      assert last in front ==> multiset(front)[last] >= 1;
      assert Distinct(s) <==> Distinct(front) && last !in front;
      assert forall x :: x in front ==> x in s;
    }
  }

  lemma {:induction false} PermutationDistinct(s: seq<Tx>, t: seq<Tx>)
    requires multiset(s) == multiset(t) && Distinct(s)
    ensures Distinct(t)
  {
    DistinctCount(s);
    DistinctCount(t);
    forall x | x in t ensures multiset(t)[x] == 1 {
      SameMembers(s, t, x);
    }
  }

  // ------------------------------------------------------------- the pool

  class Pool {
    var transactions: map<Hash, Tx>
    var queue: seq<Hash>
    var maxSize: nat
    var minFeeRate: nat

    /** Map and queue agree: the queue holds every pooled hash once. */
    ghost predicate Valid()
      reads this
    {
      && Keyed(transactions)
      && (forall h :: h in transactions <==> h in queue)
      && Distinct(queue)
    }

    constructor (maxSize: nat, minFeeRate: nat)
      ensures Valid() && transactions == map[] && this.maxSize == maxSize && this.minFeeRate == minFeeRate
    {
      transactions, queue, this.maxSize, this.minFeeRate := map[], [], maxSize, minFeeRate;
    }

    method RemoveTransaction(hash: Hash) returns (r: Option<Tx>)
      requires Valid()
      modifies `transactions, `queue
      ensures Valid() && transactions == old(transactions) - {hash} && queue == Without(old(queue), hash)
      ensures r == if hash in old(transactions) then Some(old(transactions)[hash]) else None
    {
      if hash in transactions {
        r := Some(transactions[hash]);
        WithoutDistinct(queue, hash);
        forall h ensures h in Without(queue, hash) <==> h in queue && h != hash {
          WithoutMember(queue, hash, h);
        }
        transactions := transactions - {hash};
        queue := Without(queue, hash);
      } else {
        WithoutAbsent(queue, hash);
        r := None;
      }
    }

    /** Removes one of the cheapest transactions. */
    method EvictLowest() returns (ghost evicted: Hash)
      requires Valid() && transactions != map[]
      modifies `transactions, `queue
      ensures Valid() && evicted in old(transactions) && Cheapest(old(transactions), evicted)
      ensures transactions == old(transactions) - {evicted} && queue == Without(old(queue), evicted)
    {
      var pool := transactions;
      var rest := pool.Keys;
      var lowest :| lowest in rest;
      rest := rest - {lowest};
      while rest != {}
        modifies {}
        invariant rest <= pool.Keys && lowest in pool
        invariant forall h :: h in pool && h !in rest ==> RateGeq(pool[h], pool[lowest])
        decreases rest
      {
        var h :| h in rest;
        rest := rest - {h};
        if !RateGeq(pool[h], pool[lowest]) {
          CheaperStillCheapest(pool, rest, lowest, h);
          lowest := h;
        }
      }
      evicted := lowest;
      var _ := RemoveTransaction(lowest);
    }

    /** Evicts one more of the cheapest, where `evicted` are already gone from `pool` and `start`. */
    method EvictOneMore(ghost pool: map<Hash, Tx>, ghost start: seq<Hash>, ghost evicted: set<Hash>)
      returns (ghost evicted': set<Hash>)
      requires Valid() && transactions != map[]
      requires Shrunk(pool, transactions, evicted) && queue == WithoutAll(start, evicted)
      modifies `transactions, `queue
      ensures Valid() && |transactions| == |old(transactions)| - 1
      ensures Shrunk(pool, transactions, evicted') && queue == WithoutAll(start, evicted')
    {
      ghost var before := transactions;
      var h := EvictLowest();
      ShrinkOne(pool, before, evicted, h);
      WithoutOneMore(start, evicted, h);
      evicted' := evicted + {h};
    }

    /** Evicts until there is room for one more; fails on a pool that may hold nothing. */
    method MakeRoom() returns (ok: bool, ghost evicted: set<Hash>)
      requires Valid()
      modifies `transactions, `queue
      ensures Valid() && ok == (maxSize > 0)
      ensures evicted <= old(transactions).Keys && transactions == old(transactions) - evicted
      ensures queue == WithoutAll(old(queue), evicted)
      ensures if ok then Displaces(old(transactions), evicted, maxSize) else transactions == map[]
    {
      evicted := {};
      ghost var pool := transactions;
      WithoutNone(queue);
      ShrunkByNone(pool);
      while |transactions| >= maxSize
        invariant Valid() && Shrunk(pool, transactions, evicted)
        invariant queue == WithoutAll(old(queue), evicted)
        invariant evicted != {} ==> |transactions| + 1 >= maxSize
        decreases |transactions|
      {
        if transactions == map[] {
          return false, evicted;
        }
        evicted := EvictOneMore(pool, old(queue), evicted);
      }
      ShrunkEnough(pool, transactions, evicted, maxSize);
      ok := true;
    }

    /** Makes room by evicting the cheapest, exactly as many as needed, then appends. The incoming
        transaction is not compared with what it displaces. */
    method AddTransaction(tx: Tx, invalid: Option<Invalidity>) returns (r: Result<(), Error>, ghost evicted: set<Hash>)
      requires Valid() && tx.size > 0
      modifies `transactions, `queue
      ensures Valid()
      ensures r == if tx.hash in old(transactions) then Err(TransactionExists)
                   else if invalid.Some? then Err(Refusal(invalid.value))
                   else if tx.fee < minFeeRate * tx.size then Err(InsufficientFee)
                   else if maxSize == 0 then Err(MempoolEmpty)
                   else Ok(())
      ensures r.Err? && r.error != MempoolEmpty ==> transactions == old(transactions) && queue == old(queue)
      ensures r == Err(MempoolEmpty) ==> transactions == map[]
      ensures r.Ok? ==> Displaces(old(transactions), evicted, maxSize)
      ensures r.Ok? ==> transactions == (old(transactions) - evicted)[tx.hash := tx]
      ensures r.Ok? ==> queue == WithoutAll(old(queue), evicted) + [tx.hash]
    {
      evicted := {};
      if tx.hash in transactions {
        return Err(TransactionExists), evicted;
      }
      if invalid.Some? {
        return Err(Refusal(invalid.value)), evicted;
      }
      if tx.fee < minFeeRate * tx.size {
        return Err(InsufficientFee), evicted;
      }
      var ok;
      ok, evicted := MakeRoom();
      if !ok {
        return Err(MempoolEmpty), evicted;
      }
      assert tx.hash !in transactions && tx.hash !in queue;
      transactions := transactions[tx.hash := tx];
      queue := queue + [tx.hash];
      r := Ok(());
    }

    /** A block's transactions: within both limits, no transaction twice, and none left out without
        a reason, however ties between equal rates fall. */
    method GetTransactionsForBlock(maxCount: nat, maxBytes: nat) returns (selected: seq<Tx>)
      requires Valid()
      ensures |selected| <= maxCount && TotalSize(selected) <= maxBytes && Distinct(selected) && ByRate(selected)
      ensures forall s :: s in selected ==> s.hash in transactions && transactions[s.hash] == s
      ensures forall h :: h in transactions && transactions[h] !in selected ==>
                Justified(selected, transactions[h], maxCount, maxBytes)
    {
      var txs: seq<Tx> := [];
      var rest := transactions.Keys;
      while rest != {}
        invariant rest <= transactions.Keys && Distinct(txs)
        invariant forall t :: t in txs ==> t.hash in transactions && transactions[t.hash] == t && t.hash !in rest
        invariant forall h :: h in transactions && h !in rest ==> transactions[h] in txs
        decreases rest
      {
        var h :| h in rest;
        rest := rest - {h};
        txs := txs + [transactions[h]];
      }
      var order := SortByRate(txs);
      SortPermutes(PaysMore, txs);
      SortByRateSorted(txs);
      PermutationDistinct(txs, order);
      selected := SelectFrom(order, maxCount, maxBytes);
      forall t ensures t in order <==> t in txs {
        SameMembers(order, txs, t);
      }
    }
  }

  predicate Keyed(pool: map<Hash, Tx>) {
    forall h :: h in pool ==> pool[h].hash == h && pool[h].size > 0
  }

  /** `queue.retain(|h| h != hash)`. */
  function Without(queue: seq<Hash>, hash: Hash): seq<Hash> {
    if queue == [] then []
    else if queue[|queue| - 1] == hash then Without(queue[..|queue| - 1], hash)
    else Without(queue[..|queue| - 1], hash) + [queue[|queue| - 1]]
  }

  /** The queue without all of `hashes`. */
  function WithoutAll(queue: seq<Hash>, hashes: set<Hash>): seq<Hash> {
    if queue == [] then []
    else if queue[|queue| - 1] in hashes then WithoutAll(queue[..|queue| - 1], hashes)
    else WithoutAll(queue[..|queue| - 1], hashes) + [queue[|queue| - 1]]
  }

  lemma {:induction false} WithoutNone(queue: seq<Hash>)
    ensures WithoutAll(queue, {}) == queue
    decreases |queue|
  {
    if queue != [] {
      WithoutNone(queue[..|queue| - 1]);
    }
  }

  lemma {:induction false} WithoutOneMore(queue: seq<Hash>, hashes: set<Hash>, h: Hash)
    ensures Without(WithoutAll(queue, hashes), h) == WithoutAll(queue, hashes + {h})
    decreases |queue|
  {
    if queue != [] {
      var front := WithoutAll(queue[..|queue| - 1], hashes);
      WithoutOneMore(queue[..|queue| - 1], hashes, h);
      assert (front + [queue[|queue| - 1]])[..|front|] == front;
    }
  }

  lemma {:induction false} WithoutMember(queue: seq<Hash>, hash: Hash, h: Hash)
    ensures h in Without(queue, hash) <==> h in queue && h != hash
    decreases |queue|
  {
    if queue != [] {
      var front, last := queue[..|queue| - 1], queue[|queue| - 1];
      WithoutMember(front, hash, h);
      assert h in queue <==> h in front || h == last;
    }
  }

  lemma {:induction false} WithoutDistinct(queue: seq<Hash>, hash: Hash)
    requires Distinct(queue)
    ensures Distinct(Without(queue, hash))
    decreases |queue|
  {
    if queue != [] {
      var front, last := queue[..|queue| - 1], queue[|queue| - 1];
      WithoutDistinct(front, hash);
      WithoutMember(front, hash, last);
      assert last !in front;
    }
  }

  lemma {:induction false} WithoutAbsent(queue: seq<Hash>, hash: Hash)
    requires hash !in queue
    ensures Without(queue, hash) == queue
    decreases |queue|
  {
    if queue != [] {
      var front, last := queue[..|queue| - 1], queue[|queue| - 1];
      assert last in queue;
      assert forall h :: h in front ==> h in queue;
      WithoutAbsent(front, hash);
    }
  }

  /** No pooled transaction pays a lower rate. */
  predicate Cheapest(pool: map<Hash, Tx>, h: Hash)
    requires h in pool
  {
    forall k :: k in pool ==> RateGeq(pool[k], pool[h])
  }

  lemma {:induction false} CheaperStillCheapest(pool: map<Hash, Tx>, rest: set<Hash>, lowest: Hash, h: Hash)
    requires Keyed(pool) && lowest in pool && h in pool && !RateGeq(pool[h], pool[lowest])
    requires forall k :: k in pool && k !in rest && k != h ==> RateGeq(pool[k], pool[lowest])
    ensures forall k :: k in pool && k !in rest ==> RateGeq(pool[k], pool[h])
  {
    forall k | k in pool && k !in rest ensures RateGeq(pool[k], pool[h]) {
      if k != h {
        RateGeqTransitive(pool[k], pool[lowest], pool[h]);
      }
    }
  }

  /** Everything evicted pays at most what everything kept pays. */
  predicate CheaperThanKept(pool: map<Hash, Tx>, evicted: set<Hash>) {
    forall e, k :: e in evicted && e in pool && k in pool && k !in evicted ==> RateGeq(pool[k], pool[e])
  }

  /** `evicted` is the cheapest part of `pool`, just large enough to leave room for one more. */
  ghost predicate Displaces(pool: map<Hash, Tx>, evicted: set<Hash>, maxSize: nat) {
    && evicted <= pool.Keys
    && CheaperThanKept(pool, evicted)
    && |evicted| == if |pool| < maxSize then 0 else |pool| - maxSize + 1
  }

  /** `now` is `pool` without `evicted`, which is its cheapest part. */
  ghost predicate Shrunk(pool: map<Hash, Tx>, now: map<Hash, Tx>, evicted: set<Hash>) {
    && evicted <= pool.Keys && now == pool - evicted
    && |now| + |evicted| == |pool|
    && CheaperThanKept(pool, evicted)
  }

  lemma {:induction false} ShrunkByNone(pool: map<Hash, Tx>)
    ensures Shrunk(pool, pool, {})
  {
    assert pool - {} == pool;
  }

  lemma {:induction false} ShrunkEnough(pool: map<Hash, Tx>, now: map<Hash, Tx>, evicted: set<Hash>, maxSize: nat)
    requires Shrunk(pool, now, evicted) && |now| < maxSize && (evicted != {} ==> |now| + 1 >= maxSize)
    ensures Displaces(pool, evicted, maxSize)
  {}

  lemma {:induction false} ShrinkOne(pool: map<Hash, Tx>, now: map<Hash, Tx>, evicted: set<Hash>, h: Hash)
    requires Shrunk(pool, now, evicted) && h in now && Cheapest(now, h)
    ensures Shrunk(pool, now - {h}, evicted + {h}) && |now - {h}| == |now| - 1
  {
    assert (now - {h}).Keys == now.Keys - {h};
    assert now - {h} == pool - (evicted + {h});
    forall k | k in pool && k !in evicted ensures RateGeq(pool[k], pool[h]) {
      assert k in now;
    }
  }

  // ------------------------------------------------------------- what rates and sizes are

  /** The comparison is that of the fees per byte as exact ratios. */
  lemma {:induction false} RateIsFeePerByte(a: Tx, b: Tx)
    requires a.size > 0 && b.size > 0
    ensures RateGeq(a, b) <==> a.fee as real / a.size as real >= b.fee as real / b.size as real
  {
    var x, y := a.fee as real / a.size as real, b.fee as real / b.size as real;
    var p, q := a.size as real, b.size as real;
    assert a.fee as real == x * p && b.fee as real == y * q;
    assert (a.fee * b.size) as real == (x * p) * q && (b.fee * a.size) as real == (y * q) * p;
    RealScale(x, y, p * q);
    assert (x * p) * q == x * (p * q) && (y * q) * p == y * (p * q);
  }

  lemma {:induction false} RealScale(x: real, y: real, k: real)
    requires k > 0.0
    ensures x >= y <==> x * k >= y * k
  {
    assert (x - y) * k == x * k - y * k;
  }

  /** Sizes add up. */
  lemma {:induction false} TotalSizeAppend(a: seq<Tx>, b: seq<Tx>)
    ensures TotalSize(a + b) == TotalSize(a) + TotalSize(b)
    decreases |b|
  {
    if b == [] {
      assert a + b == a;
    } else {
      TotalSizeAppend(a, b[..|b| - 1]);
      assert (a + b)[..|a + b| - 1] == a + b[..|b| - 1];
    }
  }

  lemma {:induction false} TotalSizeOne(t: Tx)
    ensures TotalSize([t]) == t.size
  {
    assert [t][..0] == [];
  }
}
