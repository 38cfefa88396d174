/** Deduction of a block's transaction fees from SOV balances and their credit to the treasury. */
module Fees {
  import opened Blocks
  import opened Common
  import opened Sums

  /** An account key of the SOV token. */
  type Key = Hash

  /** The configured treasury wallet: none, an id that is not 32 hex bytes, or a wallet key. */
  datatype Treasury = Unset | Malformed | Wallet(key: Key)

  datatype Payment = Payment(payer: Key, fee: nat)

  type Balances = map<Key, nat>

  /** The SOV token: whether its contract exists yet, and the balances. */
  datatype Sov = Sov(deployed: bool, balances: Balances)

  // ------------------------------------------------------------- who pays

  /** The fee payments of the first `n` transactions: system transactions and zero fees are exempt,
      and a signer with a primary wallet pays from it; `wallets` gives the wallets' keys by signer. */
  function Payments(wallets: map<Key, Key>, txs: seq<Transaction>, n: nat): seq<Payment>
    requires n <= |txs|
  {
    if n == 0 then []
    else if Exempt(txs[n - 1]) then Payments(wallets, txs, n - 1)
    else Payments(wallets, txs, n - 1) + [Payment(Payer(wallets, txs[n - 1]), txs[n - 1].fee)]
  }

  predicate Exempt(tx: Transaction) {
    (tx.inputs == [] && !tx.tokenContract) || tx.fee == 0
  }

  function Payer(wallets: map<Key, Key>, tx: Transaction): Key {
    if tx.signer in wallets then wallets[tx.signer] else tx.signer
  }

  // ------------------------------------------------------------- deduction

  predicate Covers(b: Balances, p: Payment) {
    Get(b, p.payer) >= p.fee
  }

  /** Takes one payment if its payer can still cover it. */
  function Take(b: Balances, p: Payment): Balances {
    if Covers(b, p) then b[p.payer := Get(b, p.payer) - p.fee] else b
  }

  /** Balances after all payments in order. */
  function Charged(b: Balances, ps: seq<Payment>): Balances {
    if ps == [] then b else Take(Charged(b, ps[..|ps| - 1]), ps[|ps| - 1])
  }

  /** What the last payment of `ps` brings in. */
  function Taken(b: Balances, ps: seq<Payment>): nat
    requires ps != []
  {
    if Covers(Charged(b, ps[..|ps| - 1]), ps[|ps| - 1]) then ps[|ps| - 1].fee else 0
  }

  /** The fees of the payments taken, as a mathematical sum. */
  function Collected(b: Balances, ps: seq<Payment>): nat {
    if ps == [] then 0 else Collected(b, ps[..|ps| - 1]) + Taken(b, ps)
  }

  /** The part of them taken from account `k`. */
  function CollectedFrom(b: Balances, ps: seq<Payment>, k: Key): nat {
    if ps == [] then 0
    else if ps[|ps| - 1].payer == k then CollectedFrom(b, ps[..|ps| - 1], k) + Taken(b, ps)
    else CollectedFrom(b, ps[..|ps| - 1], k)
  }

  /** Every account is down by exactly the fees taken from it. */
  lemma {:induction false} ChargedAccount(b: Balances, ps: seq<Payment>, k: Key)
    ensures Get(Charged(b, ps), k) + CollectedFrom(b, ps, k) == Get(b, k)
    decreases |ps|
  {
    if ps != [] {
      ChargedAccount(b, ps[..|ps| - 1], k);
    }
  }

  /** The supply is down by exactly the fees taken. */
  lemma {:induction false} ChargedSupply(b: Balances, ps: seq<Payment>)
    ensures Total(Charged(b, ps)) + Collected(b, ps) == Total(b)
    decreases |ps|
  {
    if ps != [] {
      var before, p := Charged(b, ps[..|ps| - 1]), ps[|ps| - 1];
      ChargedSupply(b, ps[..|ps| - 1]);
      if Covers(before, p) {
        TotalSet(before, p.payer, Get(before, p.payer) - p.fee);
      }
    }
  }

  // ------------------------------------------------------------- when every fee is paid

  /** The fees due from account `k`, and from everyone. */
  function DueFrom(ps: seq<Payment>, k: Key): nat {
    if ps == [] then 0
    else DueFrom(ps[..|ps| - 1], k) + if ps[|ps| - 1].payer == k then ps[|ps| - 1].fee else 0
  }

  function TotalDue(ps: seq<Payment>): nat {
    if ps == [] then 0 else TotalDue(ps[..|ps| - 1]) + ps[|ps| - 1].fee
  }

  /** Every account holds the sum of the fees due from it. */
  ghost predicate Funded(b: Balances, ps: seq<Payment>) {
    forall k :: DueFrom(ps, k) <= Get(b, k)
  }

  /** Every payment was taken in full. */
  ghost predicate PaidInFull(b: Balances, ps: seq<Payment>) {
    Collected(b, ps) == TotalDue(ps) && forall k :: CollectedFrom(b, ps, k) == DueFrom(ps, k)
  }

  lemma {:induction false} CollectedAtMost(b: Balances, ps: seq<Payment>)
    ensures Collected(b, ps) <= TotalDue(ps)
    decreases |ps|
  {
    if ps != [] {
      CollectedAtMost(b, ps[..|ps| - 1]);
    }
  }

  lemma {:induction false} PaidIfCollected(b: Balances, ps: seq<Payment>)
    requires Collected(b, ps) == TotalDue(ps)
    ensures PaidInFull(b, ps)
    decreases |ps|
  {
    if ps != [] {
      CollectedAtMost(b, ps[..|ps| - 1]);
      PaidIfCollected(b, ps[..|ps| - 1]);
    }
  }

  lemma {:induction false} PaidIfFunded(b: Balances, ps: seq<Payment>)
    requires Funded(b, ps)
    ensures PaidInFull(b, ps)
    decreases |ps|
  {
    if ps != [] {
      var front, p := ps[..|ps| - 1], ps[|ps| - 1];
      forall k ensures DueFrom(front, k) <= Get(b, k) {
        assert DueFrom(front, k) <= DueFrom(ps, k);
      }
      PaidIfFunded(b, front);
      ChargedAccount(b, front, p.payer);
      assert DueFrom(ps, p.payer) <= Get(b, p.payer);
    }
  }

  /** All fees of a block are collected exactly when each account holds, at the start, the sum of the
      fees due from it; the order of the transactions does not matter. */
  lemma {:induction false} AllFeesPaid(b: Balances, ps: seq<Payment>)
    ensures Collected(b, ps) == TotalDue(ps) <==> Funded(b, ps)
  {
    if Collected(b, ps) == TotalDue(ps) {
      PaidIfCollected(b, ps);
      forall k ensures DueFrom(ps, k) <= Get(b, k) {
        ChargedAccount(b, ps, k);
      }
    }
    if Funded(b, ps) {
      PaidIfFunded(b, ps);
    }
  }

  /** The fees of the first `n` transactions that are not system transactions. */
  function BlockFees(txs: seq<Transaction>, n: nat): nat
    requires n <= |txs|
  {
    if n == 0 then 0
    else BlockFees(txs, n - 1) + if txs[n - 1].inputs != [] || txs[n - 1].tokenContract then txs[n - 1].fee else 0
  }

  /** The fees of the first `n` non-system transactions that account `k` pays: the primary wallet of a signer
      who has one, and otherwise the signer. */
  function BlockFeesOf(wallets: map<Key, Key>, txs: seq<Transaction>, n: nat, k: Key): nat
    requires n <= |txs|
  {
    if n == 0 then 0
    else
      var tx := txs[n - 1];
      var system := tx.inputs == [] && !tx.tokenContract;
      var pays := (tx.signer in wallets && wallets[tx.signer] == k) || (tx.signer !in wallets && tx.signer == k);
      BlockFeesOf(wallets, txs, n - 1, k) + if !system && pays then tx.fee else 0
  }

  /** What is due from each account is the sum of the fees of the transactions it pays for. */
  lemma {:induction false} DueFromPayer(wallets: map<Key, Key>, txs: seq<Transaction>, n: nat, k: Key)
    requires n <= |txs|
    ensures DueFrom(Payments(wallets, txs, n), k) == BlockFeesOf(wallets, txs, n, k)
  {
    if n > 0 {
      DueFromPayer(wallets, txs, n - 1, k);
      var tx := txs[n - 1];
      if !Exempt(tx) {
        DueFromSnoc(Payments(wallets, txs, n - 1), Payment(Payer(wallets, tx), tx.fee), k);
      }
    }
  }

  lemma {:induction false} DueFromSnoc(ps: seq<Payment>, p: Payment, k: Key)
    ensures DueFrom(ps + [p], k) == DueFrom(ps, k) + if p.payer == k then p.fee else 0
  {
    assert (ps + [p])[..|ps|] == ps;
  }

  /** What is due in all is the sum of the fees of the block's non-system transactions, whoever pays. */
  lemma {:induction false} DueIsBlockFees(wallets: map<Key, Key>, txs: seq<Transaction>, n: nat)
    requires n <= |txs|
    ensures TotalDue(Payments(wallets, txs, n)) == BlockFees(txs, n)
  {
    if n > 0 {
      DueIsBlockFees(wallets, txs, n - 1);
      var tx := txs[n - 1];
      if !Exempt(tx) {
        TotalDueSnoc(Payments(wallets, txs, n - 1), Payment(Payer(wallets, tx), tx.fee));
      }
    }
  }

  lemma {:induction false} TotalDueSnoc(ps: seq<Payment>, p: Payment)
    ensures TotalDue(ps + [p]) == TotalDue(ps) + p.fee
  {
    assert (ps + [p])[..|ps|] == ps;
  }

  // ------------------------------------------------------------- supply

  /** Balances are 128-bit. */
  predicate InRange(b: Balances) {
    forall k :: k in b ==> b[k] <= U128_MAX
  }

  lemma {:induction false} ChargedInRange(b: Balances, ps: seq<Payment>)
    requires InRange(b)
    ensures InRange(Charged(b, ps))
    decreases |ps|
  {
    if ps != [] {
      ChargedInRange(b, ps[..|ps| - 1]);
    }
  }

  /** Credits a positive total to a well-formed treasury, saturating at 128 bits. */
  function Credited(b: Balances, total: nat, treasury: Treasury): Balances {
    if total > 0 && treasury.Wallet? then
      b[treasury.key := Min(U128_MAX, Get(b, treasury.key) + total)]
    else b
  }

  /** The fees a block brings in, as the saturating 64-bit sum the source keeps. */
  function FeesTaken(sov: Sov, wallets: map<Key, Key>, txs: seq<Transaction>): nat {
    if sov.deployed then Min(Collected(sov.balances, Payments(wallets, txs, |txs|)), U64_MAX) else 0
  }

  /** The token after a block's fees are deducted and credited. */
  function Deducted(sov: Sov, wallets: map<Key, Key>, treasury: Treasury, txs: seq<Transaction>): Sov {
    if sov.deployed then
      var charged := Charged(sov.balances, Payments(wallets, txs, |txs|));
      sov.(balances := Credited(charged, FeesTaken(sov, wallets, txs), treasury))
    else sov
  }

  method FeePayers(wallets: map<Key, Key>, txs: seq<Transaction>) returns (ps: seq<Payment>)
    ensures ps == Payments(wallets, txs, |txs|)
    ensures forall k :: DueFrom(ps, k) == BlockFeesOf(wallets, txs, |txs|, k)
  {
    forall k ensures DueFrom(Payments(wallets, txs, |txs|), k) == BlockFeesOf(wallets, txs, |txs|, k) {
      DueFromPayer(wallets, txs, |txs|, k);
    }
    ps := [];
    for i := 0 to |txs|
      invariant ps == Payments(wallets, txs, i)
    {
      if !Exempt(txs[i]) {
        ps := ps + [Payment(Payer(wallets, txs[i]), txs[i].fee)];
      }
    }
  }

  class SovToken {
    var deployed: bool
    var balances: Balances

    ghost function View(): Sov
      reads this
    {
      Sov(deployed, balances)
    }

    /** The deduction loop; a payer who cannot cover a fee is passed over. */
    method ChargeAll(ps: seq<Payment>) returns (total: nat)
      modifies `balances
      ensures balances == Charged(old(balances), ps)
      ensures total == Min(Collected(old(balances), ps), U64_MAX)
    {
      total := 0;
      for i := 0 to |ps|
        invariant balances == Charged(old(balances), ps[..i])
        invariant total == Min(Collected(old(balances), ps[..i]), U64_MAX)
      {
        assert ps[..i + 1][..i] == ps[..i];
        var balance := Get(balances, ps[i].payer);
        if balance >= ps[i].fee {
          balances := balances[ps[i].payer := balance - ps[i].fee];
          total := Min(total + ps[i].fee, U64_MAX);
        }
      }
      assert ps[..|ps|] == ps;
    }

    /** `deduct_transaction_fees`: the total is a saturating 64-bit sum. */
    method DeductTransactionFees(wallets: map<Key, Key>, treasury: Treasury, txs: seq<Transaction>) returns (total: nat)
      modifies `balances
      ensures View() == Deducted(old(View()), wallets, treasury, txs)
      ensures total == FeesTaken(old(View()), wallets, txs)
    {
      var ps := FeePayers(wallets, txs);
      total := 0;
      if !deployed {
        return;
      }
      total := ChargeAll(ps);
      if total > 0 && treasury.Wallet? {
        balances := balances[treasury.key := Min(U128_MAX, Get(balances, treasury.key) + total)];
      }
    }
  }

  /** The supply is conserved exactly when the fees fit 64 bits and the treasury has room for them;
      without a well-formed treasury it drops by the fees taken. The treasury may itself be a payer. */
  lemma {:induction false} FeesConserveSupply(b: Balances, ps: seq<Payment>, treasury: Treasury)
    requires InRange(b)
    ensures var fees := Collected(b, ps);
            var after := Credited(Charged(b, ps), Min(fees, U64_MAX), treasury);
            if treasury.Wallet? then
              Total(after) == Total(b) <==>
                fees <= U64_MAX && Get(Charged(b, ps), treasury.key) + fees <= U128_MAX
            else Total(after) == Total(b) - fees
  {
    var charged, fees := Charged(b, ps), Collected(b, ps);
    ChargedSupply(b, ps);
    ChargedInRange(b, ps);
    if treasury.Wallet? {
      var held := Get(charged, treasury.key);
      TotalSet(charged, treasury.key, Min(U128_MAX, held + Min(fees, U64_MAX)));
    }
  }

  /** Within a supply of 128 bits and a block's fees of 64 bits, with a well-formed treasury, deducting the
      fees of any block conserves the supply. */
  lemma {:induction false} DeductConserves(sov: Sov, wallets: map<Key, Key>, treasury: Treasury, txs: seq<Transaction>)
    requires Total(sov.balances) <= U128_MAX && BlockFees(txs, |txs|) <= U64_MAX && treasury.Wallet?
    ensures Total(Deducted(sov, wallets, treasury, txs).balances) == Total(sov.balances)
  {
    var b, ps := sov.balances, Payments(wallets, txs, |txs|);
    forall k | k in b ensures b[k] <= U128_MAX {
      GetAtMostTotal(b, k);
    }
    DueIsBlockFees(wallets, txs, |txs|);
    CollectedAtMost(b, ps);
    ChargedSupply(b, ps);
    GetAtMostTotal(Charged(b, ps), treasury.key);
    FeesConserveSupply(b, ps, treasury);
  }

  /** Payments come in block order. */
  lemma {:induction false} PaymentsInOrder(wallets: map<Key, Key>, txs: seq<Transaction>, m: nat, n: nat)
    requires m <= n <= |txs|
    ensures Payments(wallets, txs, m) <= Payments(wallets, txs, n)
    decreases n
  {
    if m < n {
      PaymentsInOrder(wallets, txs, m, n - 1);
    }
  }

  /** What a block's fees do to one account: it is down by what was taken from it, and the treasury is up by the
      whole total, up to 128 bits. */
  lemma {:induction false} DeductedAccount(sov: Sov, wallets: map<Key, Key>, treasury: Treasury, txs: seq<Transaction>,
                                           k: Key)
    requires sov.deployed
    ensures var ps := Payments(wallets, txs, |txs|);
            var total := Min(Collected(sov.balances, ps), U64_MAX);
            var charged := Get(sov.balances, k) - CollectedFrom(sov.balances, ps, k);
            var after := Get(Deducted(sov, wallets, treasury, txs).balances, k);
            && charged >= 0
            && (treasury == Wallet(k) && total > 0 ==> after == Min(U128_MAX, charged + total))
            && (treasury != Wallet(k) || total == 0 ==> after == charged)
  {
    ChargedAccount(sov.balances, Payments(wallets, txs, |txs|), k);
  }
}
