/** The header window, tracked outputs and rollback of a light client (`EdgeNodeState`). */
module LightClient {
  import opened Common
  import opened Blocks
  import Merkle

  datatype UtxoKey = UtxoKey(txHash: Hash, outputIndex: nat)

  datatype Error = Version | BlockHash | Timestamp | Height | Continuity | NotLater
                 | MerkleRoot | FutureHeight | NotMine | NoHeader | Proof

  /** The two hash functions the client calls: Blake3, and `BlockHeader::calculate_hash`. */
  datatype Crypto = Crypto(blake3: Merkle.Hasher, headerHash: Header -> Hash)

  /** The fields of `EdgeNodeState` as a value. */
  datatype State = State(
    headers: seq<Header>, maxHeaders: nat, currentHeight: nat,
    utxos: map<UtxoKey, Output>, addresses: seq<Bytes>)

  // ------------------------------------------------------------- header window

  predicate HeaderOk(c: Crypto, h: Header) {
    h.version != 0 && c.headerHash(h) == h.blockHash && h.timestamp > 0
  }

  /** `next` extends `prev`. */
  predicate Linked(prev: Header, next: Header) {
    next.height == prev.height + 1 && next.previousHash == prev.blockHash && prev.timestamp < next.timestamp
  }

  /** `validate_header`, with its checks in order. */
  function Validate(c: Crypto, hs: seq<Header>, h: Header): (e: Option<Error>)
    ensures e == None <==> HeaderOk(c, h) && (hs == [] || Linked(Last(hs), h))
  {
    if h.version == 0 then Some(Version)
    else if c.headerHash(h) != h.blockHash then Some(BlockHash)
    else if h.timestamp == 0 then Some(Timestamp)
    else if hs == [] then None
    else if h.height != Last(hs).height + 1 then Some(Height)
    else if h.previousHash != Last(hs).blockHash then Some(Continuity)
    else if h.timestamp <= Last(hs).timestamp then Some(NotLater)
    else None
  }

  /** The newest `max` headers. */
  function Trim(hs: seq<Header>, max: nat): seq<Header> {
    if |hs| <= max then hs else hs[|hs| - max..]
  }

  function AfterHeader(c: Crypto, st: State, h: Header): State {
    if Validate(c, st.headers, h) != None then st
    else st.(currentHeight := if h.height > st.currentHeight then h.height else st.currentHeight,
             headers := Trim(st.headers + [h], st.maxHeaders))
  }

  /** Drops headers from the back until one is at or below `target`. */
  function KeepUpTo(hs: seq<Header>, target: nat): seq<Header> {
    if hs == [] || Last(hs).height <= target then hs else KeepUpTo(hs[..|hs| - 1], target)
  }

  function AfterRollback(st: State, target: nat): State {
    if target > st.currentHeight then st
    else st.(headers := KeepUpTo(st.headers, target), currentHeight := target)
  }

  // ------------------------------------------------------------- tracked outputs

  function AfterAddress(st: State, address: Bytes): State {
    if IsMine(st.addresses, address) then st else st.(addresses := st.addresses + [address])
  }

  /** `is_my_address`. */
  predicate IsMine(addresses: seq<Bytes>, recipient: Bytes) {
    recipient in addresses
  }

  /** Tracks `output` if it is mine. */
  function Track(addresses: seq<Bytes>, u: map<UtxoKey, Output>, key: UtxoKey, output: Output): map<UtxoKey, Output> {
    if IsMine(addresses, output.recipient) then u[key := output] else u
  }

  /** Tracks the first `n` outputs of `tx` that pay one of `addresses`, by position as a `u32`. */
  function Receive(addresses: seq<Bytes>, u: map<UtxoKey, Output>, tx: Transaction, n: nat): map<UtxoKey, Output>
    requires n <= |tx.outputs|
  {
    if n == 0 then u
    else
      Track(addresses, Receive(addresses, u, tx, n - 1),
            UtxoKey(tx.hash, (n - 1) % 0x1_0000_0000), tx.outputs[n - 1])
  }

  /** Forgets the outputs spent by the first `n` inputs. */
  function Spend(u: map<UtxoKey, Output>, inputs: seq<Input>, n: nat): map<UtxoKey, Output>
    requires n <= |inputs|
  {
    if n == 0 then u
    else Spend(u, inputs, n - 1) - {UtxoKey(inputs[n - 1].previousOutput, inputs[n - 1].outputIndex)}
  }

  function ScanTx(addresses: seq<Bytes>, u: map<UtxoKey, Output>, tx: Transaction): map<UtxoKey, Output> {
    Spend(Receive(addresses, u, tx, |tx.outputs|), tx.inputs, |tx.inputs|)
  }

  function Scan(addresses: seq<Bytes>, u: map<UtxoKey, Output>, txs: seq<Transaction>): map<UtxoKey, Output> {
    if txs == [] then u
    else ScanTx(addresses, Scan(addresses, u, txs[..|txs| - 1]), Last(txs))
  }

  /** Whether a block is processed to the end: its header is accepted and commits to `txs`. */
  predicate BlockSucceeds(c: Crypto, st: State, h: Header, txs: seq<Transaction>) {
    Validate(c, st.headers, h) == None && BlockRoot(c.blake3, txs) == h.dataHelixRoot
  }

  /** A block whose root does not match keeps its header and changes no tracked output. */
  function AfterBlock(c: Crypto, st: State, h: Header, txs: seq<Transaction>): State {
    var st' := AfterHeader(c, st, h);
    if BlockSucceeds(c, st, h, txs) then st'.(utxos := Scan(st.addresses, st.utxos, txs)) else st'
  }

  /** Pops headers from the front down to the limit. */
  method TrimFront(hs: seq<Header>, max: nat) returns (kept: seq<Header>)
    ensures kept == Trim(hs, max)
  {
    kept := hs;
    while |kept| > max
      invariant |kept| <= |hs| && kept == hs[|hs| - |kept|..]
      invariant if |hs| <= max then |kept| == |hs| else |kept| >= max
    {
      kept := kept[1..];
    }
  }

  // ------------------------------------------------------------- the client object

  class EdgeNode {
    var headers: seq<Header>
    var maxHeaders: nat
    var currentHeight: nat
    var utxos: map<UtxoKey, Output>
    var addresses: seq<Bytes>

    ghost function View(): State
      reads this
    {
      State(headers, maxHeaders, currentHeight, utxos, addresses)
    }

    constructor (maxHeaders: nat)
      ensures View() == State([], maxHeaders, 0, map[], [])
    {
      headers, this.maxHeaders, currentHeight, utxos, addresses := [], maxHeaders, 0, map[], [];
    }

    method AddAddress(address: Bytes)
      modifies this
      ensures View() == AfterAddress(old(View()), address)
      ensures View() == old(View()).(addresses :=
                if address in old(addresses) then old(addresses) else old(addresses) + [address])
    {
      if address !in addresses {
        addresses := addresses + [address];
      }
    }

    method AddHeader(c: Crypto, h: Header) returns (r: Result<(), Error>)
      modifies this
      ensures View() == AfterHeader(c, old(View()), h)
      ensures r.Ok? <==> Validate(c, old(headers), h) == None
      ensures r.Err? ==> Validate(c, old(headers), h) == Some(r.error)
      ensures r.Ok? <==>
                && h.version != 0 && c.headerHash(h) == h.blockHash && h.timestamp > 0
                && (old(headers) == [] ||
                    var newest := old(headers)[|old(headers)| - 1];
                    && h.height == newest.height + 1 && h.previousHash == newest.blockHash
                    && newest.timestamp < h.timestamp)
      ensures r.Ok? ==>
                var all := old(headers) + [h];
                && |headers| == Min(|all|, maxHeaders) && headers == all[|all| - |headers|..]
                && currentHeight == Max(old(currentHeight), h.height)
      ensures r.Err? ==> headers == old(headers) && currentHeight == old(currentHeight)
    {
      var v := Validate(c, headers, h);
      if v.Some? {
        return Err(v.value);
      }
      if h.height > currentHeight {
        currentHeight := h.height;
      }
      headers := TrimFront(headers + [h], maxHeaders);
      r := Ok(());
    }

    method RollbackToHeight(target: nat) returns (r: Result<(), Error>)
      modifies this
      ensures View() == AfterRollback(old(View()), target)
      ensures r == if target > old(currentHeight) then Err(FutureHeight) else Ok(())
    {
      if target > currentHeight {
        return Err(FutureHeight);
      }
      while headers != [] && Last(headers).height > target
        modifies `headers
        invariant KeepUpTo(headers, target) == KeepUpTo(old(headers), target)
        decreases |headers|
      {
        headers := headers[..|headers| - 1];
      }
      currentHeight := target;
      r := Ok(());
    }

    method AddUtxo(txHash: Hash, index: nat, output: Output)
      modifies `utxos
      ensures utxos == Track(addresses, old(utxos), UtxoKey(txHash, index), output)
      ensures output.recipient in addresses ==> utxos == old(utxos)[UtxoKey(txHash, index) := output]
      ensures output.recipient !in addresses ==> utxos == old(utxos)
    {
      if !IsMine(addresses, output.recipient) {
        return;
      }
      utxos := utxos[UtxoKey(txHash, index) := output];
    }

    method RemoveUtxo(txHash: Hash, index: nat) returns (removed: bool)
      modifies `utxos
      ensures utxos == old(utxos) - {UtxoKey(txHash, index)}
      ensures removed <==> UtxoKey(txHash, index) in old(utxos)
    {
      var key := UtxoKey(txHash, index);
      removed := key in utxos;
      utxos := utxos - {key};
    }

    method ScanTransaction(tx: Transaction)
      modifies `utxos
      ensures utxos == ScanTx(addresses, old(utxos), tx)
    {
      for i := 0 to |tx.outputs|
        invariant utxos == Receive(addresses, old(utxos), tx, i)
      {
        if IsMine(addresses, tx.outputs[i].recipient) {
          AddUtxo(tx.hash, i % 0x1_0000_0000, tx.outputs[i]);
        }
      }
      ghost var received := utxos;
      for i := 0 to |tx.inputs|
        invariant utxos == Spend(received, tx.inputs, i)
      {
        var _ := RemoveUtxo(tx.inputs[i].previousOutput, tx.inputs[i].outputIndex);
      }
    }

    method ScanBlock(txs: seq<Transaction>)
      modifies `utxos
      ensures utxos == Scan(addresses, old(utxos), txs)
    {
      for i := 0 to |txs|
        invariant utxos == Scan(addresses, old(utxos), txs[..i])
      {
        assert txs[..i + 1][..i] == txs[..i];
        ScanTransaction(txs[i]);
      }
      assert txs[..|txs|] == txs;
    }

    method ProcessBlock(c: Crypto, h: Header, txs: seq<Transaction>) returns (r: Result<(), Error>)
      modifies this
      ensures View() == AfterBlock(c, old(View()), h, txs)
      ensures r.Ok? <==> BlockSucceeds(c, old(View()), h, txs)
      ensures r == Err(MerkleRoot) <==>
                Validate(c, old(headers), h) == None && BlockRoot(c.blake3, txs) != h.dataHelixRoot
      ensures forall hs: seq<Hash> :: HashesOf(txs, hs) ==>
                (r.Ok? <==> Validate(c, old(headers), h) == None && TopNode(c.blake3, hs) == h.dataHelixRoot)
    {
      forall hs: seq<Hash> | HashesOf(txs, hs) ensures BlockRoot(c.blake3, txs) == TopNode(c.blake3, hs) {
        RootInBlockOrder(c.blake3, txs, hs);
      }
      r := AddHeader(c, h);
      if r.Err? {
        return;
      }
      var root := Merkle.ComputeMerkleRoot(c.blake3, TxHashes(txs));
      if root != h.dataHelixRoot {
        return Err(MerkleRoot);
      }
      ScanBlock(txs);
    }

    /** The first header of the given height. */
    method GetHeaderByHeight(height: nat) returns (r: Option<Header>)
      ensures r == FindHeader(headers, height)
    {
      for i := 0 to |headers|
        invariant FindHeader(headers, height) == FindHeader(headers[i..], height)
      {
        assert headers[i..][1..] == headers[i + 1..];
        if headers[i].height == height {
          return Some(headers[i]);
        }
      }
      return None;
    }

    method VerifyPayment(c: Crypto, txHash: Hash, output: Output, proof: seq<Hash>, height: nat)
      returns (r: Result<Header, Error>)
      ensures r.Ok? <==>
              && output.recipient in addresses
              && FindHeader(headers, height).Some?
              && Merkle.Fold(c.blake3, txHash, proof) == FindHeader(headers, height).value.dataHelixRoot
      ensures r.Ok? ==> Some(r.value) == FindHeader(headers, height)
    {
      if !IsMine(addresses, output.recipient) {
        return Err(NotMine);
      }
      var found := GetHeaderByHeight(height);
      if found == None {
        return Err(NoHeader);
      }
      var checked := Merkle.VerifyMerkleProof(c.blake3, txHash, proof, found.value.dataHelixRoot);
      if checked.Err? {
        return Err(Proof);
      }
      return Ok(found.value);
    }
  }

  function FindHeader(hs: seq<Header>, height: nat): Option<Header> {
    if hs == [] then None
    else if hs[0].height == height then Some(hs[0])
    else FindHeader(hs[1..], height)
  }

  // ------------------------------------------------------------- runs

  datatype Op =
    | AddHeaderOp(header: Header)
    | BlockOp(header: Header, txs: seq<Transaction>)
    | RollbackOp(target: nat)
    | AddressOp(address: Bytes)

  function Step(c: Crypto, st: State, op: Op): State {
    match op
    case AddHeaderOp(h) => AfterHeader(c, st, h)
    case BlockOp(h, txs) => AfterBlock(c, st, h, txs)
    case RollbackOp(t) => AfterRollback(st, t)
    case AddressOp(a) => AfterAddress(st, a)
  }

  function Run(c: Crypto, st: State, ops: seq<Op>): State {
    if ops == [] then st else Step(c, Run(c, st, ops[..|ops| - 1]), Last(ops))
  }
}
