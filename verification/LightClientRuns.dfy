/** What the light client keeps over every run of its operations. */
module LightClientRuns {
  import opened Common
  import opened Blocks
  import opened LightClient
  import Merkle

  // ------------------------------------------------------------- header window

  /** Every header is valid and each extends the one before it. */
  predicate Chained(c: Crypto, hs: seq<Header>) {
    && (forall i :: 0 <= i < |hs| ==> HeaderOk(c, hs[i]))
    && (forall i :: 0 < i < |hs| ==> Linked(hs[i - 1], hs[i]))
  }

  predicate WindowInv(c: Crypto, st: State) {
    && Chained(c, st.headers)
    && |st.headers| <= st.maxHeaders
    && (st.headers != [] ==> Last(st.headers).height <= st.currentHeight)
  }

  lemma {:induction false} KeepUpToPrefix(hs: seq<Header>, target: nat)
    ensures var k := KeepUpTo(hs, target);
            && |k| <= |hs| && k == hs[..|k|]
            && (k != [] ==> Last(k).height <= target)
            && (|k| < |hs| ==> hs[|k|].height > target)
    decreases |hs|
  {
    if hs != [] && Last(hs).height > target {
      KeepUpToPrefix(hs[..|hs| - 1], target);
    }
  }

  lemma {:induction false} HeaderKeepsWindow(c: Crypto, st: State, h: Header)
    requires WindowInv(c, st)
    ensures WindowInv(c, AfterHeader(c, st, h))
  {
    var all := st.headers + [h];
    if Validate(c, st.headers, h) == None {
      assert Chained(c, all);
    }
  }

  lemma {:induction false} StepKeepsWindow(c: Crypto, st: State, op: Op)
    requires WindowInv(c, st)
    ensures WindowInv(c, Step(c, st, op))
  {
    match op
    case AddHeaderOp(h) => HeaderKeepsWindow(c, st, h);
    case BlockOp(h, _) => HeaderKeepsWindow(c, st, h);
    case RollbackOp(t) => KeepUpToPrefix(st.headers, t);
    case AddressOp(_) =>
  }

  /** Every state reached from a new client keeps the window invariant. */
  lemma {:induction false} RunKeepsWindow(c: Crypto, st: State, ops: seq<Op>)
    requires WindowInv(c, st)
    ensures WindowInv(c, Run(c, st, ops))
  {
    if ops != [] {
      RunKeepsWindow(c, st, ops[..|ops| - 1]);
      StepKeepsWindow(c, Run(c, st, ops[..|ops| - 1]), Last(ops));
    }
  }

  lemma {:induction false} HeightAt(c: Crypto, hs: seq<Header>, i: nat)
    requires Chained(c, hs) && i < |hs|
    ensures hs[i].height == hs[0].height + i
  {
    if i > 0 {
      HeightAt(c, hs, i - 1);
      assert Linked(hs[i - 1], hs[i]);
    }
  }

  /** Lookup by height succeeds exactly between the window's ends, and finds the only such header. */
  lemma {:induction false} LookupByHeight(c: Crypto, hs: seq<Header>, height: nat)
    requires Chained(c, hs)
    ensures FindHeader(hs, height).Some? <==> hs != [] && hs[0].height <= height <= Last(hs).height
    ensures hs != [] && hs[0].height <= height <= Last(hs).height ==>
              && height - hs[0].height < |hs|
              && FindHeader(hs, height) == Some(hs[height - hs[0].height])
    ensures forall i :: 0 <= i < |hs| && hs[i].height == height ==> i == height - hs[0].height
    decreases |hs|
  {
    forall i | 0 <= i < |hs| ensures hs[i].height == hs[0].height + i {
      HeightAt(c, hs, i);
    }
    if hs != [] && hs[0].height != height {
      var tail := hs[1..];
      assert forall i :: 0 < i < |tail| ==> tail[i - 1] == hs[i] && tail[i] == hs[i + 1];
      LookupByHeight(c, tail, height);
      if tail != [] {
        assert tail[0] == hs[1] && Last(tail) == Last(hs);
      }
    }
  }

  // ------------------------------------------------------------- tip and current height

  /** The newest header is at the current height. */
  predicate Synced(st: State) {
    st.headers != [] ==> Last(st.headers).height == st.currentHeight
  }

  /** The one way to lose it: a header below the current height enters an empty window. */
  predicate Restarts(c: Crypto, st: State, op: Op) {
    && (op.AddHeaderOp? || op.BlockOp?)
    && st.headers == [] && st.maxHeaders > 0
    && Validate(c, st.headers, op.header) == None
    && op.header.height < st.currentHeight
  }

  lemma {:induction false} HeaderSynced(c: Crypto, st: State, h: Header)
    requires WindowInv(c, st) && Synced(st)
    ensures Synced(AfterHeader(c, st, h)) <==> !Restarts(c, st, AddHeaderOp(h))
  {}

  lemma {:induction false} RollbackSynced(c: Crypto, st: State, target: nat)
    requires WindowInv(c, st) && Synced(st)
    ensures Synced(AfterRollback(st, target))
  {
    var hs := st.headers;
    var k := KeepUpTo(hs, target);
    KeepUpToPrefix(hs, target);
    if target <= st.currentHeight && k != [] {
      HeightAt(c, hs, |hs| - 1);
      HeightAt(c, hs, |k| - 1);
      if |k| < |hs| {
        HeightAt(c, hs, |k|);
      }
    }
  }

  /** A step keeps the tip at the current height exactly when it does not restart the window. */
  lemma {:induction false} StepSynced(c: Crypto, st: State, op: Op)
    requires WindowInv(c, st) && Synced(st)
    ensures Synced(Step(c, st, op)) <==> !Restarts(c, st, op)
  {
    match op
    case AddHeaderOp(h) => HeaderSynced(c, st, h);
    case BlockOp(h, _) => HeaderSynced(c, st, h);
    case RollbackOp(t) => RollbackSynced(c, st, t);
    case AddressOp(_) =>
  }

  predicate NeverRestarts(c: Crypto, st: State, ops: seq<Op>) {
    ops == [] || (NeverRestarts(c, st, ops[..|ops| - 1]) && !Restarts(c, Run(c, st, ops[..|ops| - 1]), Last(ops)))
  }

  /** So over every run without a restart the tip is the current height. */
  lemma {:induction false} RunSynced(c: Crypto, st: State, ops: seq<Op>)
    requires WindowInv(c, st) && Synced(st) && NeverRestarts(c, st, ops)
    ensures Synced(Run(c, st, ops))
  {
    if ops != [] {
      var front := ops[..|ops| - 1];
      RunSynced(c, st, front);
      RunKeepsWindow(c, st, front);
      StepSynced(c, Run(c, st, front), Last(ops));
    }
  }

  /** A restart needs an emptied window: only a rollback below the oldest header makes one. */
  lemma {:induction false} EmptiedByRollback(c: Crypto, st: State, op: Op)
    requires WindowInv(c, st) && st.headers != [] && Step(c, st, op).headers == []
    ensures op.RollbackOp? && op.target < st.headers[0].height
  {
    match op
    case AddHeaderOp(h) =>
    case BlockOp(h, _) =>
    case RollbackOp(t) => KeepUpToPrefix(st.headers, t);
    case AddressOp(_) =>
  }

  /** No rollback of the run goes below the oldest header. */
  predicate RollsBackInWindow(c: Crypto, st: State, ops: seq<Op>) {
    ops == [] || (RollsBackInWindow(c, st, ops[..|ops| - 1]) && InWindow(Run(c, st, ops[..|ops| - 1]), Last(ops)))
  }

  predicate InWindow(st: State, op: Op) {
    op.RollbackOp? && st.headers != [] ==> st.headers[0].height <= op.target
  }

  /** The window has never been emptied, or cannot hold anything. */
  predicate Unemptied(st: State) {
    st.headers == [] ==> st.currentHeight == 0 || st.maxHeaders == 0
  }

  lemma {:induction false} StepUnemptied(c: Crypto, st: State, op: Op)
    requires WindowInv(c, st) && Synced(st) && Unemptied(st) && InWindow(st, op)
    ensures Synced(Step(c, st, op)) && Unemptied(Step(c, st, op))
  {
    StepSynced(c, st, op);
    if st.headers != [] && Step(c, st, op).headers == [] && st.maxHeaders > 0 {
      EmptiedByRollback(c, st, op);
    }
    StepMax(c, st, op);
  }

  lemma {:induction false} StepMax(c: Crypto, st: State, op: Op)
    ensures Step(c, st, op).maxHeaders == st.maxHeaders
    ensures Step(c, st, op).headers == [] && st.headers == [] && st.maxHeaders > 0 ==>
              Step(c, st, op).currentHeight <= st.currentHeight
  {}

  /** Over every run from a new client in which no rollback goes below the oldest header, the newest header is
      at the current height. */
  lemma {:induction false} TipIsCurrentHeight(c: Crypto, maxHeaders: nat, addresses: seq<Bytes>, ops: seq<Op>)
    requires RollsBackInWindow(c, State([], maxHeaders, 0, map[], addresses), ops)
    ensures Synced(Run(c, State([], maxHeaders, 0, map[], addresses), ops))
    ensures Unemptied(Run(c, State([], maxHeaders, 0, map[], addresses), ops))
  {
    if ops != [] {
      var start := State([], maxHeaders, 0, map[], addresses);
      var front := ops[..|ops| - 1];
      TipIsCurrentHeight(c, maxHeaders, addresses, front);
      RunKeepsWindow(c, start, front);
      StepUnemptied(c, Run(c, start, front), Last(ops));
    }
  }

  // ------------------------------------------------------------- tracked outputs

  datatype Event = Created(key: UtxoKey, output: Output) | Spent(key: UtxoKey)

  /** What a transaction does to the client's outputs: payments to it, then spends. */
  function ReceiveEvents(addresses: seq<Bytes>, tx: Transaction, n: nat): seq<Event>
    requires n <= |tx.outputs|
  {
    if n == 0 then []
    else if IsMine(addresses, tx.outputs[n - 1].recipient) then
      ReceiveEvents(addresses, tx, n - 1)
      + [Created(UtxoKey(tx.hash, (n - 1) % 0x1_0000_0000), tx.outputs[n - 1])]
    else ReceiveEvents(addresses, tx, n - 1)
  }

  function SpendEvents(inputs: seq<Input>, n: nat): seq<Event>
    requires n <= |inputs|
  {
    if n == 0 then []
    else SpendEvents(inputs, n - 1) + [Spent(UtxoKey(inputs[n - 1].previousOutput, inputs[n - 1].outputIndex))]
  }

  function BlockEvents(addresses: seq<Bytes>, txs: seq<Transaction>): seq<Event> {
    if txs == [] then []
    else
      BlockEvents(addresses, txs[..|txs| - 1])
      + ReceiveEvents(addresses, Last(txs), |Last(txs).outputs|)
      + SpendEvents(Last(txs).inputs, |Last(txs).inputs|)
  }

  /** The events of every block the run processed to the end, in chain order. */
  function RunEvents(c: Crypto, st: State, ops: seq<Op>): seq<Event> {
    if ops == [] then []
    else
      RunEvents(c, st, ops[..|ops| - 1]) + OpEvents(c, Run(c, st, ops[..|ops| - 1]), Last(ops))
  }

  function OpEvents(c: Crypto, st: State, op: Op): seq<Event> {
    if op.BlockOp? && BlockSucceeds(c, st, op.header, op.txs) then BlockEvents(st.addresses, op.txs) else []
  }

  /** The reference: the last event on `key` decides, or the starting map if there is none. */
  function Tracked(start: map<UtxoKey, Output>, events: seq<Event>, key: UtxoKey): Option<Output> {
    if events == [] then (if key in start then Some(start[key]) else None)
    else if Last(events).key != key then Tracked(start, events[..|events| - 1], key)
    else match Last(events)
      case Created(_, output) => Some(output)
      case Spent(_) => None
  }

  function Get(u: map<UtxoKey, Output>, key: UtxoKey): Option<Output> {
    if key in u then Some(u[key]) else None
  }

  lemma {:induction false} TrackedAppend(start: map<UtxoKey, Output>, mid: map<UtxoKey, Output>,
                                         a: seq<Event>, b: seq<Event>, key: UtxoKey)
    requires Get(mid, key) == Tracked(start, a, key)
    ensures Tracked(start, a + b, key) == Tracked(mid, b, key)
    decreases |b|
  {
    if b == [] {
      assert a + b == a;
    } else {
      var b' := b[..|b| - 1];
      assert (a + b)[..|a + b| - 1] == a + b';
      if Last(b).key != key {
        TrackedAppend(start, mid, a, b', key);
      }
    }
  }

  lemma {:induction false} ReceiveTracked(addresses: seq<Bytes>, u: map<UtxoKey, Output>, tx: Transaction, n: nat,
                                          key: UtxoKey)
    requires n <= |tx.outputs|
    ensures Get(Receive(addresses, u, tx, n), key) == Tracked(u, ReceiveEvents(addresses, tx, n), key)
  {
    if n > 0 {
      ReceiveTracked(addresses, u, tx, n - 1, key);
      var before := ReceiveEvents(addresses, tx, n - 1);
      var event := Created(UtxoKey(tx.hash, (n - 1) % 0x1_0000_0000), tx.outputs[n - 1]);
      assert (before + [event])[..|before|] == before;
    }
  }

  /** Within 32 bits every output to the client is tracked under its own position, and no other is. */
  lemma {:induction false} ReceiveAt(addresses: seq<Bytes>, u: map<UtxoKey, Output>, tx: Transaction, n: nat, i: nat)
    requires n <= |tx.outputs| <= 0x1_0000_0000 && i < n
    ensures var key := UtxoKey(tx.hash, i);
            Get(Receive(addresses, u, tx, n), key)
            == if tx.outputs[i].recipient in addresses then Some(tx.outputs[i]) else Get(u, key)
  {
    if i < n - 1 {
      ReceiveAt(addresses, u, tx, n - 1, i);
    } else {
      ReceiveBelow(addresses, u, tx, n - 1, i);
    }
  }

  lemma {:induction false} ReceiveBelow(addresses: seq<Bytes>, u: map<UtxoKey, Output>, tx: Transaction, n: nat, i: nat)
    requires n <= i < |tx.outputs| <= 0x1_0000_0000
    ensures Get(Receive(addresses, u, tx, n), UtxoKey(tx.hash, i)) == Get(u, UtxoKey(tx.hash, i))
  {
    if n > 0 {
      ReceiveBelow(addresses, u, tx, n - 1, i);
    }
  }

  lemma {:induction false} SpendTracked(u: map<UtxoKey, Output>, inputs: seq<Input>, n: nat, key: UtxoKey)
    requires n <= |inputs|
    ensures Get(Spend(u, inputs, n), key) == Tracked(u, SpendEvents(inputs, n), key)
  {
    if n > 0 {
      SpendTracked(u, inputs, n - 1, key);
      assert SpendEvents(inputs, n)[..n - 1] == SpendEvents(inputs, n - 1) by {
        SpendEventsLength(inputs, n - 1);
      }
    }
  }

  lemma {:induction false} SpendEventsLength(inputs: seq<Input>, n: nat)
    requires n <= |inputs|
    ensures |SpendEvents(inputs, n)| == n
  {
    if n > 0 {
      SpendEventsLength(inputs, n - 1);
    }
  }

  lemma {:induction false} ScanTracked(addresses: seq<Bytes>, u: map<UtxoKey, Output>, txs: seq<Transaction>,
                                       key: UtxoKey)
    ensures Get(Scan(addresses, u, txs), key) == Tracked(u, BlockEvents(addresses, txs), key)
    decreases |txs|
  {
    if txs != [] {
      var front, tx := txs[..|txs| - 1], Last(txs);
      var u1 := Scan(addresses, u, front);
      var u2 := Receive(addresses, u1, tx, |tx.outputs|);
      var e1 := BlockEvents(addresses, front);
      var e2 := ReceiveEvents(addresses, tx, |tx.outputs|);
      var e3 := SpendEvents(tx.inputs, |tx.inputs|);
      ScanTracked(addresses, u, front, key);
      ReceiveTracked(addresses, u1, tx, |tx.outputs|, key);
      TrackedAppend(u, u1, e1, e2, key);
      SpendTracked(u2, tx.inputs, |tx.inputs|, key);
      TrackedAppend(u, u2, e1 + e2, e3, key);
    }
  }

  /** Over every run, an output is tracked exactly when the last event on its key in the blocks
      processed to the end is its creation. Failed blocks, headers and rollbacks count for nothing. */
  lemma {:induction false} RunTracksLastEvent(c: Crypto, st: State, ops: seq<Op>, key: UtxoKey)
    ensures Get(Run(c, st, ops).utxos, key) == Tracked(st.utxos, RunEvents(c, st, ops), key)
  {
    if ops != [] {
      var front, op := ops[..|ops| - 1], Last(ops);
      var mid := Run(c, st, front);
      RunTracksLastEvent(c, st, front, key);
      TrackedAppend(st.utxos, mid.utxos, RunEvents(c, st, front), OpEvents(c, mid, op), key);
      if op.BlockOp? && BlockSucceeds(c, mid, op.header, op.txs) {
        ScanTracked(mid.addresses, mid.utxos, op.txs, key);
      }
    }
  }

  /** Event `i` is the last one on `key`. */
  predicate LastOn(events: seq<Event>, key: UtxoKey, i: int) {
    0 <= i < |events| && events[i].key == key && forall j :: i < j < |events| ==> events[j].key != key
  }

  /** The reference in quantified form, for a client that started with no outputs. */
  lemma {:induction false} TrackedIsLastCreation(events: seq<Event>, key: UtxoKey, output: Output)
    ensures Tracked(map[], events, key) == Some(output)
       <==> exists i :: LastOn(events, key, i) && events[i] == Created(key, output)
    decreases |events|
  {
    if events != [] {
      var front := events[..|events| - 1];
      var last := |events| - 1;
      if events[last].key == key {
        assert LastOn(events, key, last);
      } else {
        TrackedIsLastCreation(front, key, output);
        if i :| LastOn(front, key, i) && front[i] == Created(key, output) {
          assert LastOn(events, key, i);
        }
        if i :| LastOn(events, key, i) && events[i] == Created(key, output) {
          assert LastOn(front, key, i);
        }
      }
    }
  }

  /** Every tracked output pays one of the client's addresses. */
  predicate AllMine(addresses: seq<Bytes>, u: map<UtxoKey, Output>) {
    forall k :: k in u ==> IsMine(addresses, u[k].recipient)
  }

  lemma {:induction false} ReceiveMine(addresses: seq<Bytes>, u: map<UtxoKey, Output>, tx: Transaction, n: nat)
    requires AllMine(addresses, u) && n <= |tx.outputs|
    ensures AllMine(addresses, Receive(addresses, u, tx, n))
  {
    if n > 0 {
      ReceiveMine(addresses, u, tx, n - 1);
    }
  }

  lemma {:induction false} SpendMine(addresses: seq<Bytes>, u: map<UtxoKey, Output>, inputs: seq<Input>, n: nat)
    requires AllMine(addresses, u) && n <= |inputs|
    ensures AllMine(addresses, Spend(u, inputs, n))
  {
    if n > 0 {
      SpendMine(addresses, u, inputs, n - 1);
    }
  }

  lemma {:induction false} ScanMine(addresses: seq<Bytes>, u: map<UtxoKey, Output>, txs: seq<Transaction>)
    requires AllMine(addresses, u)
    ensures AllMine(addresses, Scan(addresses, u, txs))
    decreases |txs|
  {
    if txs != [] {
      var front, tx := txs[..|txs| - 1], Last(txs);
      ScanMine(addresses, u, front);
      ReceiveMine(addresses, Scan(addresses, u, front), tx, |tx.outputs|);
      SpendMine(addresses, Receive(addresses, Scan(addresses, u, front), tx, |tx.outputs|), tx.inputs, |tx.inputs|);
    }
  }

  lemma {:induction false} RunTracksOnlyMine(c: Crypto, st: State, ops: seq<Op>)
    requires AllMine(st.addresses, st.utxos)
    ensures AllMine(Run(c, st, ops).addresses, Run(c, st, ops).utxos)
  {
    if ops != [] {
      var mid, op := Run(c, st, ops[..|ops| - 1]), Last(ops);
      RunTracksOnlyMine(c, st, ops[..|ops| - 1]);
      if op.BlockOp? {
        ScanMine(mid.addresses, mid.utxos, op.txs);
      }
    }
  }

  // ------------------------------------------------------------- rollback and tracked outputs

  /** What an event leaves under its key. */
  function Effect(e: Event): Option<Output> {
    match e
    case Created(_, output) => Some(output)
    case Spent(_) => None
  }

  /** The last event on each key leaves what was there before. */
  ghost predicate LeavesAsBefore(start: map<UtxoKey, Output>, events: seq<Event>) {
    forall i :: 0 <= i < |events| && LastOn(events, events[i].key, i) ==> Effect(events[i]) == Get(start, events[i].key)
  }

  lemma {:induction false} TrackedByLast(start: map<UtxoKey, Output>, events: seq<Event>, key: UtxoKey, i: nat)
    requires LastOn(events, key, i)
    ensures Tracked(start, events, key) == Effect(events[i])
    decreases |events|
  {
    if i < |events| - 1 {
      var front := events[..|events| - 1];
      assert LastOn(front, key, i);
      TrackedByLast(start, front, key, i);
    }
  }

  lemma {:induction false} UntouchedOrLast(start: map<UtxoKey, Output>, events: seq<Event>, key: UtxoKey)
    returns (i: int)
    ensures if i < 0 then Tracked(start, events, key) == Get(start, key) else LastOn(events, key, i)
    decreases |events|
  {
    if events == [] {
      i := -1;
    } else if Last(events).key == key {
      i := |events| - 1;
    } else {
      i := UntouchedOrLast(start, events[..|events| - 1], key);
    }
  }

  /** Rolling back keeps the outputs. They are those from before the run exactly when the last event on each
      key, over the blocks processed since, leaves what was there before. */
  lemma {:induction false} RollbackUndoes(c: Crypto, st: State, ops: seq<Op>, target: nat)
    ensures AfterRollback(Run(c, st, ops), target).utxos == st.utxos <==>
              LeavesAsBefore(st.utxos, RunEvents(c, st, ops))
  {
    var events, u := RunEvents(c, st, ops), Run(c, st, ops).utxos;
    if u == st.utxos {
      forall i | 0 <= i < |events| && LastOn(events, events[i].key, i)
        ensures Effect(events[i]) == Get(st.utxos, events[i].key)
      {
        RunTracksLastEvent(c, st, ops, events[i].key);
        TrackedByLast(st.utxos, events, events[i].key, i);
      }
    }
    if LeavesAsBefore(st.utxos, events) {
      forall key ensures Get(u, key) == Get(st.utxos, key) {
        RunTracksLastEvent(c, st, ops, key);
        var i := UntouchedOrLast(st.utxos, events, key);
        if i >= 0 {
          TrackedByLast(st.utxos, events, key, i);
        }
      }
      SameGets(u, st.utxos);
    }
  }

  lemma {:induction false} SameGets(u: map<UtxoKey, Output>, v: map<UtxoKey, Output>)
    requires forall key :: Get(u, key) == Get(v, key)
    ensures u == v
  {
    forall key ensures (key in u <==> key in v) && (key in u ==> u[key] == v[key]) {
      assert Get(u, key) == Get(v, key);
    }
  }

  /** A header hash that every header states correctly. */
  function StatedHash(h: Header): Hash {
    h.blockHash
  }

  /** A new client with one address is paid in a block at height 1 and rolls back to height 0: no header is
      left, but the output still is. */
  lemma {:induction false} PaymentSurvivesRollback(blake3: Merkle.Hasher, tx: Transaction, address: Bytes)
    requires |tx.outputs| == 1 && tx.outputs[0].recipient == address && tx.inputs == []
    ensures var c := Crypto(blake3, StatedHash);
            var st := State([], 10, 0, map[], [address]);
            var h := Header(1, ZERO_HASH, BlockRoot(blake3, [tx]), 1, 1, ZERO_HASH, ZERO_HASH, ZERO_HASH, ZERO_HASH);
            var back := AfterRollback(Run(c, st, [BlockOp(h, [tx])]), 0);
            back.headers == [] && back.currentHeight == 0 && back.utxos == map[UtxoKey(tx.hash, 0) := tx.outputs[0]]
  {
    var c := Crypto(blake3, StatedHash);
    var st := State([], 10, 0, map[], [address]);
    var h := Header(1, ZERO_HASH, BlockRoot(blake3, [tx]), 1, 1, ZERO_HASH, ZERO_HASH, ZERO_HASH, ZERO_HASH);
    var op := BlockOp(h, [tx]);
    assert [op][..0] == [] && [tx][..0] == [];
    assert Run(c, st, [op]) == Step(c, Run(c, st, []), op);
    assert Scan([address], map[], [tx]) == ScanTx([address], Scan([address], map[], []), tx);
    assert Receive([address], map[], tx, 1)
        == Track([address], Receive([address], map[], tx, 0), UtxoKey(tx.hash, 0), tx.outputs[0]);
    var headers := Run(c, st, [op]).headers;
    assert headers == [h];
    assert KeepUpTo(headers, 0) == KeepUpTo(headers[..0], 0);
  }
}
