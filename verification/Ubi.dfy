/** Daily payouts of the universal basic income: rounding of the monthly amount over thirty payouts,
    spacing of payouts, and the read-only planner for mint transactions. */
module Ubi {
  import opened Common
  import opened Sums

  const BLOCKS_PER_DAY: nat := 8640
  /** 1000 SOV in atomic units of 10^-18. */
  const MONTHLY_AMOUNT: nat := 1000 * 1_000_000_000_000_000_000

  datatype Entry = Entry(
    walletId: string, dailyAmount: nat, monthlyAmount: nat, registeredAt: nat,
    lastPayout: Option<nat>, totalReceived: nat, remainder: nat, active: bool)

  type Registry = map<string, Entry>

  predicate Due(e: Entry, block: nat) {
    e.active && (e.lastPayout == None || SaturatingSub(block, e.lastPayout.value) >= BLOCKS_PER_DAY)
  }

  /** The remainder carried into a payout. */
  function Carry(e: Entry): nat {
    e.remainder + e.monthlyAmount % 30
  }

  function Payout(e: Entry): nat {
    if Carry(e) >= 30 then e.dailyAmount + Carry(e) / 30 else e.dailyAmount
  }

  function Paid(e: Entry, block: nat): Entry {
    e.(lastPayout := Some(block), totalReceived := e.totalReceived + Payout(e),
       remainder := if Carry(e) >= 30 then Carry(e) % 30 else Carry(e))
  }

  /** One citizen's entry after a distribution at `block`. */
  function After(e: Entry, block: nat): Entry {
    if Due(e, block) then Paid(e, block) else e
  }

  /** Exactly an active citizen never paid, or not for 8640 blocks, is paid; the payment is recorded at the
      block and nothing but the last payout, the total and the remainder changes. */
  lemma {:induction false} PaidExactlyWhenDue(e: Entry, block: nat)
    ensures var due := e.active && (e.lastPayout == None || block >= e.lastPayout.value + 8640);
            && (!due ==> After(e, block) == e)
            && (due ==>
                  && After(e, block).lastPayout == Some(block)
                  && After(e, block).totalReceived >= e.totalReceived + e.dailyAmount
                  && After(e, block).(lastPayout := e.lastPayout, totalReceived := e.totalReceived,
                                      remainder := e.remainder) == e)
  {}

  // ------------------------------------------------------------- rounding

  /** The daily amount is the monthly amount over thirty, and less than one unit of each is carried. */
  predicate Sound(e: Entry) {
    e.dailyAmount == e.monthlyAmount / 30 && e.remainder < 30
  }

  lemma {:induction false} PaidExact(e: Entry, block: nat)
    requires Sound(e)
    ensures Sound(Paid(e, block))
    ensures 30 * Paid(e, block).totalReceived + Paid(e, block).remainder
         == 30 * e.totalReceived + e.remainder + e.monthlyAmount
  {
    assert e.monthlyAmount == 30 * (e.monthlyAmount / 30) + e.monthlyAmount % 30;
    assert Carry(e) == 30 * (Carry(e) / 30) + Carry(e) % 30;
  }

  /** The entry after distributions at the given blocks, in any order and with any gaps. */
  function EntryRun(e: Entry, blocks: seq<nat>): Entry {
    if blocks == [] then e else After(EntryRun(e, blocks[..|blocks| - 1]), blocks[|blocks| - 1])
  }

  /** The blocks among them that paid. */
  function PayoutBlocks(e: Entry, blocks: seq<nat>): seq<nat> {
    if blocks == [] then []
    else if Due(EntryRun(e, blocks[..|blocks| - 1]), blocks[|blocks| - 1]) then
      PayoutBlocks(e, blocks[..|blocks| - 1]) + [blocks[|blocks| - 1]]
    else PayoutBlocks(e, blocks[..|blocks| - 1])
  }

  /** `n` monthly amounts. */
  function Months(n: nat, monthly: nat): nat {
    if n == 0 then 0 else Months(n - 1, monthly) + monthly
  }

  lemma {:induction false} MonthsIs(n: nat, monthly: nat)
    ensures Months(n, monthly) == n * monthly
  {
    if n > 0 {
      MonthsIs(n - 1, monthly);
    }
  }

  /** Rounding never loses or creates anything: after `n` payouts, thirty times what was received
      plus the carried remainder is up by exactly `n` monthly amounts. */
  lemma {:induction false} RunExact(e: Entry, blocks: seq<nat>)
    requires Sound(e)
    ensures var e' := EntryRun(e, blocks);
            && Sound(e') && e'.monthlyAmount == e.monthlyAmount
            && 30 * e'.totalReceived + e'.remainder
               == 30 * e.totalReceived + e.remainder + Months(|PayoutBlocks(e, blocks)|, e.monthlyAmount)
    decreases |blocks|
  {
    if blocks != [] {
      var front, block := blocks[..|blocks| - 1], blocks[|blocks| - 1];
      RunExact(e, front);
      if Due(EntryRun(e, front), block) {
        PaidExact(EntryRun(e, front), block);
      }
    }
  }

  /** Any thirty consecutive payouts add up to exactly one monthly amount. */
  lemma {:induction false} ThirtyPayoutsMakeAMonth(e: Entry, blocks: seq<nat>)
    requires Sound(e) && |PayoutBlocks(e, blocks)| == 30
    ensures EntryRun(e, blocks).totalReceived == e.totalReceived + e.monthlyAmount
    ensures EntryRun(e, blocks).remainder == e.remainder
  {
    RunExact(e, blocks);
    ThirtyMonths(|PayoutBlocks(e, blocks)|, e.monthlyAmount);
    var e' := EntryRun(e, blocks);
    SplitByThirty(e'.totalReceived, e'.remainder, e.totalReceived + e.monthlyAmount, e.remainder);
  }

  lemma {:induction false} ThirtyMonths(n: nat, monthly: nat)
    requires n == 30
    ensures Months(n, monthly) == 30 * monthly
  {
    MonthsIs(n, monthly);
  }

  /** A number splits into thirties and a smaller remainder in one way only. */
  lemma {:induction false} SplitByThirty(a: nat, r: nat, b: nat, s: nat)
    requires 30 * a + r == 30 * b + s && r < 30 && s < 30
    ensures a == b && r == s
  {}

  /** From registration on, with the first month's remainder carried from the start. */
  lemma {:induction false} RegisteredExact(walletId: string, at: nat, blocks: seq<nat>)
    ensures var e := EntryRun(NewEntry(walletId, at), blocks);
            && e.remainder < 30
            && 30 * e.totalReceived + e.remainder
               == |PayoutBlocks(NewEntry(walletId, at), blocks)| * MONTHLY_AMOUNT + MONTHLY_AMOUNT % 30
  {
    RunExact(NewEntry(walletId, at), blocks);
    MonthsIs(|PayoutBlocks(NewEntry(walletId, at), blocks)|, MONTHLY_AMOUNT);
  }

  /** The last payout on record is the last block that paid. */
  lemma {:induction false} LastPayoutRecorded(e: Entry, blocks: seq<nat>)
    ensures var ps := PayoutBlocks(e, blocks);
            EntryRun(e, blocks).lastPayout == if ps == [] then e.lastPayout else Some(ps[|ps| - 1])
    decreases |blocks|
  {
    if blocks != [] {
      LastPayoutRecorded(e, blocks[..|blocks| - 1]);
    }
  }

  /** Payouts are at least a day apart, also from one made before the run. */
  lemma {:induction false} PayoutsADayApart(e: Entry, blocks: seq<nat>)
    ensures var ps := PayoutBlocks(e, blocks);
            && (forall i :: 0 < i < |ps| ==> ps[i] >= ps[i - 1] + BLOCKS_PER_DAY)
            && (ps != [] && e.lastPayout.Some? ==> ps[0] >= e.lastPayout.value + BLOCKS_PER_DAY)
    decreases |blocks|
  {
    if blocks != [] {
      PayoutsADayApart(e, blocks[..|blocks| - 1]);
      LastPayoutRecorded(e, blocks[..|blocks| - 1]);
    }
  }

  /** `n` consecutive blocks from `start` on. */
  function Consecutive(start: nat, n: nat): seq<nat> {
    if n == 0 then [] else Consecutive(start, n - 1) + [start + n - 1]
  }

  /** The first `m` blocks spaced a day apart from `start` on. */
  function Daily(start: nat, m: nat): seq<nat> {
    if m == 0 then [] else Daily(start, m - 1) + [start + (m - 1) * BLOCKS_PER_DAY]
  }

  /** The days begun by `n` blocks. */
  function DaysBegun(n: nat): nat
    requires n > 0
  {
    (n - 1) / BLOCKS_PER_DAY + 1
  }

  /** Paid for the first time at the first block and then daily, without a miss: with a distribution at
      each of `n` consecutive blocks there is one payout for each day begun, exactly a day apart. */
  lemma {:induction false} PaidEveryDay(e: Entry, start: nat, n: nat)
    requires e.active && e.lastPayout == None && n > 0
    ensures EntryRun(e, Consecutive(start, n)).active
    ensures PayoutBlocks(e, Consecutive(start, n)) == Daily(start, DaysBegun(n))
  {
    var front := Consecutive(start, n - 1);
    ConsecutiveLength(start, n - 1);
    assert Consecutive(start, n)[..n - 1] == front;
    if n == 1 {
      FirstPayout(e, start, n);
    } else {
      PaidEveryDay(e, start, n - 1);
      NextPayout(e, front, start, n);
      PayoutSnoc(e, front, start + n - 1);
      DailySnoc(start, DaysBegun(n - 1));
    }
  }

  lemma {:induction false} PayoutSnoc(e: Entry, front: seq<nat>, block: nat)
    ensures PayoutBlocks(e, front + [block])
         == PayoutBlocks(e, front) + if Due(EntryRun(e, front), block) then [block] else []
    ensures EntryRun(e, front + [block]).active == EntryRun(e, front).active
  {
    assert (front + [block])[..|front|] == front;
  }

  lemma {:induction false} DailySnoc(start: nat, m: nat)
    ensures Daily(start, m + 1) == Daily(start, m) + [start + m * BLOCKS_PER_DAY]
  {}

  lemma {:induction false} FirstPayout(e: Entry, start: nat, n: nat)
    requires e.active && e.lastPayout == None && n == 1
    ensures EntryRun(e, Consecutive(start, n)).active
    ensures PayoutBlocks(e, Consecutive(start, n)) == Daily(start, DaysBegun(n))
  {
    assert Consecutive(start, n - 1) == [] && Daily(start, n - 1) == [];
    var blocks := Consecutive(start, n);
    assert blocks == [start] && blocks[..|blocks| - 1] == [];
    assert Daily(start, n) == [start] && DaysBegun(n) == n;
  }

  /** The step: the next block pays exactly when it begins another day. */
  lemma {:induction false} NextPayout(e: Entry, front: seq<nat>, start: nat, n: nat)
    requires n > 1 && EntryRun(e, front).active
    requires PayoutBlocks(e, front) == Daily(start, DaysBegun(n - 1))
    ensures Due(EntryRun(e, front), start + n - 1) <==> (n - 1) % BLOCKS_PER_DAY == 0
    ensures DaysBegun(n) == DaysBegun(n - 1) + if (n - 1) % BLOCKS_PER_DAY == 0 then 1 else 0
    ensures (n - 1) % BLOCKS_PER_DAY == 0 ==> n - 1 == DaysBegun(n - 1) * BLOCKS_PER_DAY
  {
    LastPayoutRecorded(e, front);
  }

  lemma {:induction false} ConsecutiveLength(start: nat, n: nat)
    ensures |Consecutive(start, n)| == n
  {
    if n > 0 {
      ConsecutiveLength(start, n - 1);
    }
  }

  // ------------------------------------------------------------- the registry

  function NewEntry(walletId: string, at: nat): Entry {
    Entry(walletId, MONTHLY_AMOUNT / 30, MONTHLY_AMOUNT, at, None, 0, MONTHLY_AMOUNT % 30, true)
  }

  datatype Update = Update(id: string, payout: nat, block: nat, remainder: nat)

  /** The updates a visit of the registry in the given order collects. */
  function UpdatesOf(reg: Registry, block: nat, order: seq<string>): seq<Update> {
    if order == [] then []
    else if order[|order| - 1] in reg && Due(reg[order[|order| - 1]], block) then
      UpdatesOf(reg, block, order[..|order| - 1]) + [UpdateOf(reg[order[|order| - 1]], order[|order| - 1], block)]
    else UpdatesOf(reg, block, order[..|order| - 1])
  }

  function UpdateOf(e: Entry, id: string, block: nat): Update {
    Update(id, Payout(e), block, Paid(e, block).remainder)
  }

  function SumPayouts(us: seq<Update>): nat {
    if us == [] then 0 else SumPayouts(us[..|us| - 1]) + us[|us| - 1].payout
  }

  lemma {:induction false} UpdatesSnoc(reg: Registry, block: nat, order: seq<string>, id: string)
    requires id in reg
    ensures var us, us' := UpdatesOf(reg, block, order), UpdatesOf(reg, block, order + [id]);
            if Due(reg[id], block) then
              var u := UpdateOf(reg[id], id, block);
              us' == us + [u] && SumPayouts(us') == SumPayouts(us) + u.payout
            else us' == us
  {
    assert (order + [id])[..|order|] == order;
    var us := UpdatesOf(reg, block, order);
    assert (us + [UpdateOf(reg[id], id, block)])[..|us|] == us;
  }

  function ApplyOne(e: Entry, u: Update): Entry {
    e.(lastPayout := Some(u.block), totalReceived := e.totalReceived + u.payout, remainder := u.remainder)
  }

  function Applied(reg: Registry, us: seq<Update>): Registry {
    if us == [] then reg else AppliedOne(Applied(reg, us[..|us| - 1]), us[|us| - 1])
  }

  function AppliedOne(reg: Registry, u: Update): Registry {
    if u.id in reg then reg[u.id := ApplyOne(reg[u.id], u)] else reg
  }

  /** The balance after crediting one update, if the citizen's wallet exists. */
  function CreditedOne(reg: Registry, wallets: map<string, nat>, u: Update): map<string, nat> {
    if u.id in reg && reg[u.id].walletId in wallets then
      wallets[reg[u.id].walletId := wallets[reg[u.id].walletId] + u.payout]
    else wallets
  }

  /** Wallet balances after crediting every update whose citizen's wallet exists. */
  function Credited(reg: Registry, wallets: map<string, nat>, us: seq<Update>): map<string, nat> {
    if us == [] then wallets else CreditedOne(reg, Credited(reg, wallets, us[..|us| - 1]), us[|us| - 1])
  }

  lemma {:induction false} AppliedKeys(reg: Registry, us: seq<Update>)
    ensures Applied(reg, us).Keys == reg.Keys
    decreases |us|
  {
    if us != [] {
      AppliedKeys(reg, us[..|us| - 1]);
    }
  }

  /** Applying the updates moves a visited citizen on by one distribution, and no one else. */
  lemma {:induction false} AppliedIsAfter(reg: Registry, block: nat, order: seq<string>, id: string)
    requires id in reg && Distinct(order)
    ensures id in Applied(reg, UpdatesOf(reg, block, order))
    ensures Applied(reg, UpdatesOf(reg, block, order))[id] == if id in order then After(reg[id], block) else reg[id]
    decreases |order|
  {
    if order != [] {
      var front, last := order[..|order| - 1], order[|order| - 1];
      AppliedIsAfter(reg, block, front, id);
      var us := UpdatesOf(reg, block, front);
      AppliedKeys(reg, us);
      assert last !in front;
      assert id in order <==> id in front || id == last;
      if last in reg && Due(reg[last], block) {
        assert (us + [UpdateOf(reg[last], last, block)])[..|us|] == us;
      }
    }
  }

  /** Every due citizen's wallet exists. */
  predicate WalletsExist(reg: Registry, wallets: map<string, nat>, block: nat) {
    forall id :: id in reg && Due(reg[id], block) ==> reg[id].walletId in wallets
  }

  /** When the wallets exist, crediting adds exactly the distributed total to the wallet balances. */
  lemma {:induction false} CreditedTotal(reg: Registry, wallets: map<string, nat>, block: nat, order: seq<string>)
    requires WalletsExist(reg, wallets, block)
    ensures var us := UpdatesOf(reg, block, order);
            && Credited(reg, wallets, us).Keys == wallets.Keys
            && Total(Credited(reg, wallets, us)) == Total(wallets) + SumPayouts(us)
    decreases |order|
  {
    if order != [] {
      var front, id := order[..|order| - 1], order[|order| - 1];
      CreditedTotal(reg, wallets, block, front);
      var us := UpdatesOf(reg, block, front);
      if id in reg && Due(reg[id], block) {
        CreditedOneMore(reg, wallets, us, UpdateOf(reg[id], id, block));
      }
    }
  }

  lemma {:induction false} CreditedOneMore(reg: Registry, wallets: map<string, nat>, us: seq<Update>, u: Update)
    requires u.id in reg && reg[u.id].walletId in Credited(reg, wallets, us)
    ensures Credited(reg, wallets, us + [u]).Keys == Credited(reg, wallets, us).Keys
    ensures Total(Credited(reg, wallets, us + [u])) == Total(Credited(reg, wallets, us)) + u.payout
    ensures SumPayouts(us + [u]) == SumPayouts(us) + u.payout
  {
    assert (us + [u])[..|us|] == us;
    var w := Credited(reg, wallets, us);
    TotalSet(w, reg[u.id].walletId, w[reg[u.id].walletId] + u.payout);
  }

  // ------------------------------------------------------------- who received what

  /** Everyone, or those with the given wallet. */
  predicate Selected(e: Entry, wallet: Option<string>) {
    wallet == None || e.walletId == wallet.value
  }

  /** By how much each selected citizen's total went up. */
  ghost function Increments(reg: Registry, reg': Registry, wallet: Option<string>): map<string, nat> {
    map id | id in reg && id in reg' && reg[id].totalReceived <= reg'[id].totalReceived && Selected(reg[id], wallet)
      :: reg'[id].totalReceived - reg[id].totalReceived
  }

  /** The payouts among the updates to selected citizens. */
  function SumFor(reg: Registry, us: seq<Update>, wallet: Option<string>): nat {
    if us == [] then 0
    else
      var u := us[|us| - 1];
      SumFor(reg, us[..|us| - 1], wallet) + if u.id in reg && Selected(reg[u.id], wallet) then u.payout else 0
  }

  predicate Listed(id: string, order: seq<string>) {
    id in order
  }

  function DueAmount(e: Entry, block: nat): nat {
    if Due(e, block) then Payout(e) else 0
  }

  /** What the listed and selected citizens are due. */
  function DueTo(reg: Registry, block: nat, order: seq<string>, wallet: Option<string>): map<string, nat> {
    map id | id in reg && Listed(id, order) && Selected(reg[id], wallet) :: DueAmount(reg[id], block)
  }

  lemma {:induction false} DueToSnoc(reg: Registry, block: nat, order: seq<string>, id: string, wallet: Option<string>)
    requires id in reg && id !in order
    ensures var m, m' := DueTo(reg, block, order, wallet), DueTo(reg, block, order + [id], wallet);
            && id !in m
            && m' == if Selected(reg[id], wallet) then m[id := DueAmount(reg[id], block)] else m
  {
    forall x ensures Listed(x, order + [id]) <==> Listed(x, order) || x == id {
    }
  }

  lemma {:induction false} SumForSnoc(reg: Registry, us: seq<Update>, u: Update, wallet: Option<string>)
    ensures SumFor(reg, us + [u], wallet)
         == SumFor(reg, us, wallet) + if u.id in reg && Selected(reg[u.id], wallet) then u.payout else 0
  {
    assert (us + [u])[..|us|] == us;
  }

  lemma {:induction false} SumForOrder(reg: Registry, block: nat, order: seq<string>, wallet: Option<string>)
    requires Distinct(order) && forall id :: id in order ==> id in reg
    ensures SumFor(reg, UpdatesOf(reg, block, order), wallet) == Total(DueTo(reg, block, order, wallet))
    decreases |order|
  {
    if order == [] {
      assert DueTo(reg, block, order, wallet) == map[];
    } else {
      var front, id := order[..|order| - 1], order[|order| - 1];
      assert id in order && order == front + [id];
      assert id !in front;
      SumForOrder(reg, block, front, wallet);
      SumForOneMore(reg, block, front, id, wallet);
      DueToOneMore(reg, block, front, id, wallet);
    }
  }

  lemma {:induction false} SumForOneMore(reg: Registry, block: nat, order: seq<string>, id: string,
                                         wallet: Option<string>)
    requires id in reg
    ensures SumFor(reg, UpdatesOf(reg, block, order + [id]), wallet)
         == SumFor(reg, UpdatesOf(reg, block, order), wallet)
            + if Selected(reg[id], wallet) then DueAmount(reg[id], block) else 0
  {
    UpdatesSnoc(reg, block, order, id);
    SumForSnoc(reg, UpdatesOf(reg, block, order), UpdateOf(reg[id], id, block), wallet);
  }

  lemma {:induction false} DueToOneMore(reg: Registry, block: nat, order: seq<string>, id: string,
                                        wallet: Option<string>)
    requires id in reg && id !in order
    ensures Total(DueTo(reg, block, order + [id], wallet))
         == Total(DueTo(reg, block, order, wallet)) + if Selected(reg[id], wallet) then DueAmount(reg[id], block) else 0
  {
    DueToSnoc(reg, block, order, id, wallet);
    TotalSet(DueTo(reg, block, order, wallet), id, DueAmount(reg[id], block));
  }

  /** When every citizen is visited, the payouts to the selected ones are their increments. */
  lemma {:induction false} SumIsIncrements(reg: Registry, reg': Registry, block: nat, order: seq<string>,
                                           wallet: Option<string>)
    requires Visits(reg, order) && reg'.Keys == reg.Keys
    requires forall id :: id in reg ==> reg'[id] == After(reg[id], block)
    ensures SumFor(reg, UpdatesOf(reg, block, order), wallet) == Total(Increments(reg, reg', wallet))
  {
    SumForOrder(reg, block, order, wallet);
    DueToIsIncrements(reg, reg', block, order, wallet);
  }

  lemma {:induction false} DueToIsIncrements(reg: Registry, reg': Registry, block: nat, order: seq<string>,
                                             wallet: Option<string>)
    requires (forall id :: id in reg ==> Listed(id, order)) && reg'.Keys == reg.Keys
    requires forall id :: id in reg ==> reg'[id] == After(reg[id], block)
    ensures DueTo(reg, block, order, wallet) == Increments(reg, reg', wallet)
  {
    var due, up := DueTo(reg, block, order, wallet), Increments(reg, reg', wallet);
    forall id | id in reg ensures (id in due <==> id in up) && (id in due ==> due[id] == up[id]) {
      DueIsIncrement(reg[id], block);
    }
    assert due == up;
  }

  lemma {:induction false} DueIsIncrement(e: Entry, block: nat)
    ensures After(e, block).totalReceived == e.totalReceived + DueAmount(e, block)
  {}

  lemma {:induction false} SumForAll(reg: Registry, block: nat, order: seq<string>)
    ensures SumFor(reg, UpdatesOf(reg, block, order), None) == SumPayouts(UpdatesOf(reg, block, order))
    decreases |order|
  {
    if order != [] {
      var front, id := order[..|order| - 1], order[|order| - 1];
      SumForAll(reg, block, front);
      if id in reg && Due(reg[id], block) {
        var us, u := UpdatesOf(reg, block, front), UpdateOf(reg[id], id, block);
        SumForSnoc(reg, us, u, None);
        assert (us + [u])[..|us|] == us;
      }
    }
  }

  lemma {:induction false} CreditedKeys(reg: Registry, wallets: map<string, nat>, us: seq<Update>)
    ensures Credited(reg, wallets, us).Keys == wallets.Keys
    decreases |us|
  {
    if us != [] {
      CreditedKeys(reg, wallets, us[..|us| - 1]);
    }
  }

  /** A wallet is up by the payouts to its citizens. */
  lemma {:induction false} CreditedAt(reg: Registry, wallets: map<string, nat>, us: seq<Update>, w: string)
    requires w in wallets
    ensures w in Credited(reg, wallets, us)
    ensures Credited(reg, wallets, us)[w] == wallets[w] + SumFor(reg, us, Some(w))
    decreases |us|
  {
    if us != [] {
      CreditedAt(reg, wallets, us[..|us| - 1], w);
    }
  }

  datatype MintEntry = MintEntry(id: string, walletId: string, payout: nat)

  class UbiLedger {
    var registry: Registry
    var wallets: map<string, nat>

    method RegisterForUbi(id: string, walletId: string, at: nat) returns (ok: bool)
      modifies `registry
      ensures ok <==> id !in old(registry)
      ensures registry == if ok then old(registry)[id := NewEntry(walletId, at)] else old(registry)
      ensures ok ==>
                var e := registry[id];
                && e.active && e.walletId == walletId && e.registeredAt == at
                && e.lastPayout == None && e.totalReceived == 0
                && e.monthlyAmount == 1_000_000_000_000_000_000_000
                && e.dailyAmount == e.monthlyAmount / 30 && e.remainder == e.monthlyAmount % 30
    {
      ok := id !in registry;
      if ok {
        registry := registry[id := NewEntry(walletId, at)];
      }
    }

    /** The amount due and the remainder left. */
    method ComputeUpdate(e: Entry, id: string, block: nat) returns (u: Update)
      ensures u == UpdateOf(e, id, block)
    {
      var payout, remainder := e.dailyAmount, e.remainder + e.monthlyAmount % 30;
      if remainder >= 30 {
        payout, remainder := payout + remainder / 30, remainder % 30;
      }
      u := Update(id, payout, block, remainder);
    }

    /** The first loop of the distribution: visits the registry in any order. */
    method CollectUpdates(block: nat) returns (us: seq<Update>, total: nat, ghost order: seq<string>)
      ensures Visits(registry, order) && us == UpdatesOf(registry, block, order) && total == SumPayouts(us)
    {
      us, total, order := [], 0, [];
      var rest := registry.Keys;
      while rest != {}
        invariant rest <= registry.Keys
        invariant forall k :: k in order <==> k in registry && k !in rest
        invariant Distinct(order)
        invariant us == UpdatesOf(registry, block, order) && total == SumPayouts(us)
        decreases rest
      {
        var id :| id in rest;
        rest := rest - {id};
        var e := registry[id];
        UpdatesSnoc(registry, block, order, id);
        order := order + [id];
        if Due(e, block) {
          var update := ComputeUpdate(e, id, block);
          us := us + [update];
          total := total + update.payout;
        }
      }
    }

    /** Moves one citizen's entry on and credits the wallet if it exists. */
    method ApplyUpdate(u: Update)
      modifies `registry, `wallets
      ensures registry == AppliedOne(old(registry), u)
      ensures wallets == CreditedOne(old(registry), old(wallets), u)
    {
      if u.id in registry {
        var e := registry[u.id];
        registry := registry[u.id := ApplyOne(e, u)];
        if e.walletId in wallets {
          wallets := wallets[e.walletId := wallets[e.walletId] + u.payout];
        }
      }
    }

    /** The second loop: applies the updates and credits the wallets that exist. */
    method ApplyUpdates(us: seq<Update>)
      modifies `registry, `wallets
      ensures registry == Applied(old(registry), us)
      ensures wallets == Credited(old(registry), old(wallets), us)
    {
      ghost var reg0, w0 := registry, wallets;
      for i := 0 to |us|
        invariant registry == Applied(reg0, us[..i]) && SameWallets(reg0, registry)
        invariant wallets == Credited(reg0, w0, us[..i])
      {
        assert us[..i + 1][..i] == us[..i];
        StillSameWallets(reg0, registry, us[i]);
        ApplyUpdate(us[i]);
      }
      assert us[..|us|] == us;
    }

    /** Pays every due citizen once. The total is what all citizens together received, and each wallet is up
        by what the citizens it belongs to received. */
    method ProcessDistribution(block: nat) returns (total: nat)
      modifies `registry, `wallets
      ensures registry.Keys == old(registry).Keys
      ensures forall id :: id in registry ==> registry[id] == After(old(registry)[id], block)
      ensures total == Total(Increments(old(registry), registry, None))
      ensures wallets.Keys == old(wallets).Keys
      ensures forall w :: w in wallets ==>
                wallets[w] == old(wallets)[w] + Total(Increments(old(registry), registry, Some(w)))
      ensures WalletsExist(old(registry), old(wallets), block) ==> Total(wallets) == Total(old(wallets)) + total
    {
      ghost var order;
      var us;
      us, total, order := CollectUpdates(block);
      ghost var reg0, w0 := registry, wallets;
      ApplyUpdates(us);
      AppliedKeys(reg0, us);
      forall id | id in reg0 ensures registry[id] == After(reg0[id], block) {
        AppliedIsAfter(reg0, block, order, id);
      }
      SumIsIncrements(reg0, registry, block, order, None);
      forall w | w in w0 ensures w in wallets && wallets[w] == w0[w] + Total(Increments(reg0, registry, Some(w))) {
        CreditedAt(reg0, w0, us, w);
        SumIsIncrements(reg0, registry, block, order, Some(w));
      }
      CreditedKeys(reg0, w0, us);
      SumForAll(reg0, block, order);
      if WalletsExist(reg0, w0, block) {
        CreditedTotal(reg0, w0, block, order);
      }
    }

    /** The planner: exactly one entry per due citizen with an existing, well-formed wallet, for the
        amount a distribution at that block would pay. */
    method CollectMintEntries(validId: string -> bool, block: nat) returns (entries: seq<MintEntry>)
      ensures forall id :: id in registry ==>
                ((exists m :: m in entries && m.id == id) <==>
                   var e := registry[id];
                   && e.active && (e.lastPayout == None || block >= e.lastPayout.value + 8640)
                   && e.walletId in wallets && validId(e.walletId))
      ensures forall m :: m in entries ==>
                && m.id in registry
                && m.walletId == registry[m.id].walletId
                && registry[m.id].totalReceived + m.payout == After(registry[m.id], block).totalReceived
      ensures forall i, j :: 0 <= i < j < |entries| ==> entries[i].id != entries[j].id
    {
      entries := [];
      var rest := registry.Keys;
      while rest != {}
        invariant rest <= registry.Keys
        invariant forall m :: m in entries ==>
                    && m.id in registry && m.id !in rest
                    && Planned(registry[m.id], m, block)
                    && Mintable(registry[m.id], wallets, validId, block)
        invariant forall id :: id in registry && id !in rest && Mintable(registry[id], wallets, validId, block)
                    ==> exists m :: m in entries && m.id == id
        invariant forall i, j :: 0 <= i < j < |entries| ==> entries[i].id != entries[j].id
        decreases rest
      {
        var id :| id in rest;
        rest := rest - {id};
        var e := registry[id];
        if Due(e, block) && e.walletId in wallets && validId(e.walletId) {
          var payout, carry := e.dailyAmount, e.remainder + e.monthlyAmount % 30;
          if carry >= 30 {
            payout := payout + carry / 30;
          }
          var m := MintEntry(id, e.walletId, payout);
          assert forall x :: x in entries + [m] <==> x in entries || x == m;
          entries := entries + [m];
          assert m in entries;
        }
      }
    }
  }

  /** Both registries list the same citizens with the same wallets. */
  predicate SameWallets(reg: Registry, reg': Registry) {
    reg'.Keys == reg.Keys && forall id :: id in reg ==> reg'[id].walletId == reg[id].walletId
  }

  lemma {:induction false} StillSameWallets(reg: Registry, reg': Registry, u: Update)
    requires SameWallets(reg, reg')
    ensures SameWallets(reg, AppliedOne(reg', u))
    ensures forall w: map<string, nat> :: CreditedOne(reg', w, u) == CreditedOne(reg, w, u)
  {}

  predicate Mintable(e: Entry, wallets: map<string, nat>, validId: string -> bool, block: nat) {
    Due(e, block) && e.walletId in wallets && validId(e.walletId)
  }

  predicate Planned(e: Entry, m: MintEntry, block: nat) {
    m.walletId == e.walletId && m.payout == Payout(e) && Due(e, block)
  }
}
