/** The light client's sync planner and what a round of syncing against an honest chain achieves. */
module Sync {
  import opened Common
  import opened Blocks
  import opened LightClient
  import opened LightClientRuns

  datatype Plan =
    | HeadersOnly(startHeight: nat, count: nat)
    | BootstrapProof(proofUpTo: nat, headersFrom: nat, headersCount: nat)
  {
    /** The first header to fetch, and how many. */
    function Start(): nat {
      if HeadersOnly? then startHeight else headersFrom
    }

    function Count(): nat {
      if HeadersOnly? then count else headersCount
    }
  }

  function GetSyncStrategy(st: State, network: nat): Plan {
    if st.headers == [] then
      if network < 100 then HeadersOnly(0, network)
      else BootstrapProof(SaturatingSub(network, 100), SaturatingSub(network, 100), 100)
    else
      var behind := SaturatingSub(network, st.currentHeight);
      if behind <= 500 then HeadersOnly(st.currentHeight + 1, behind)
      else BootstrapProof(SaturatingSub(network, 100), SaturatingSub(network, 100), 100)
  }

  predicate NeedsBootstrapProof(st: State, network: nat) {
    if network < 100 then false
    else if st.headers == [] then true
    else SaturatingSub(network, st.currentHeight) > 500
  }

  /** The two planners agree on every state. */
  lemma {:induction false} NeedsProofIffPlanned(st: State, network: nat)
    ensures NeedsBootstrapProof(st, network) <==> GetSyncStrategy(st, network).BootstrapProof?
  {}

  /** From a tip the plan's last header is the network's height; on a first sync it is the one below, as the
      count starts at height 0. A bootstrap fetches a hundred headers, starting where the proof ends. */
  lemma {:induction false} PlanCovers(st: State, network: nat)
    ensures var plan := GetSyncStrategy(st, network);
            && (st.headers == [] ==> plan.Start() + plan.Count() == network)
            && (st.headers == [] && network < 100 ==> plan.Start() == 0)
            && (plan.BootstrapProof? ==>
                  plan.proofUpTo == plan.headersFrom && plan.headersFrom + 100 == network && plan.headersCount == 100)
            && (plan.HeadersOnly? && st.headers != [] ==> plan.Start() == st.currentHeight + 1)
            && (plan.HeadersOnly? && st.headers != [] && st.currentHeight <= network ==>
                  plan.Start() + plan.Count() == network + 1)
            && (st.headers != [] && network <= st.currentHeight ==> plan.Count() == 0)
  {}

  // ------------------------------------------------------------- rounds

  /** `chain` is an honest chain up to height `top`. */
  ghost predicate Honest(c: Crypto, chain: nat -> Header, top: nat) {
    && (forall n: nat :: n <= top ==> HeaderOk(c, chain(n)) && chain(n).height == n)
    && (forall n: nat :: n < top ==> Linked(chain(n), chain(n + 1)))
  }

  /** Honest chains grow by headers that link to their tip. */
  lemma {:induction false} HonestOneMore(c: Crypto, chain: nat -> Header, top: nat)
    ensures Honest(c, chain, top + 1) <==>
              && Honest(c, chain, top) && HeaderOk(c, chain(top + 1)) && chain(top + 1).height == top + 1
              && chain(top + 1).previousHash == chain(top).blockHash
              && chain(top + 1).timestamp > chain(top).timestamp
  {
    if Honest(c, chain, top + 1) {
      assert Linked(chain(top), chain(top + 1));
    }
  }

  /** Adds `count` headers from `from` on, stopping at the first that is refused. */
  function Feed(c: Crypto, st: State, chain: nat -> Header, from: nat, count: nat): State
    decreases count
  {
    if count == 0 || Validate(c, st.headers, chain(from)) != None then st
    else Feed(c, AfterHeader(c, st, chain(from)), chain, from + 1, count - 1)
  }

  /** One round: the planned headers are fetched from the chain and added. */
  function SyncRound(c: Crypto, st: State, chain: nat -> Header, network: nat): State {
    var plan := GetSyncStrategy(st, network);
    Feed(c, st, chain, plan.Start(), plan.Count())
  }

  /** The client follows `chain` and its tip is height `n`. */
  predicate AtTip(st: State, chain: nat -> Header, n: nat) {
    st.headers != [] && Last(st.headers) == chain(n) && st.currentHeight == n
  }

  lemma {:induction false} FeedReaches(c: Crypto, st: State, chain: nat -> Header, from: nat, count: nat, top: nat)
    requires Honest(c, chain, top) && st.maxHeaders > 0 && count > 0 && from + count - 1 <= top
    requires st.headers == [] || (from > 0 && Last(st.headers) == chain(from - 1))
    requires st.currentHeight <= from
    ensures AtTip(Feed(c, st, chain, from, count), chain, from + count - 1)
    ensures Feed(c, st, chain, from, count).maxHeaders > 0
    decreases count
  {
    var next := AfterHeader(c, st, chain(from));
    assert Validate(c, st.headers, chain(from)) == None by {
      if st.headers != [] {
        assert Linked(chain(from - 1), chain(from - 1 + 1));
      }
    }
    assert AtTip(next, chain, from);
    if count > 1 {
      FeedReaches(c, next, chain, from + 1, count - 1, top);
    }
  }

  /** From its tip on an honest chain the client reaches the network's height in one round exactly
      when it is at most 500 behind; further behind, the round changes nothing at all, because the
      bootstrap plan starts at a height the window refuses. */
  lemma {:induction false} RoundFromTip(c: Crypto, st: State, chain: nat -> Header, n: nat, network: nat)
    requires Honest(c, chain, network) && st.maxHeaders > 0 && AtTip(st, chain, n) && n <= network
    ensures AtTip(SyncRound(c, st, chain, network), chain, network) <==> network - n <= 500
    ensures network - n > 500 ==> SyncRound(c, st, chain, network) == st
  {
    var plan := GetSyncStrategy(st, network);
    if network - n > 500 {
      assert HeaderOk(c, chain(n)) && chain(n).height == n;
      assert HeaderOk(c, chain(plan.Start())) && chain(plan.Start()).height == plan.Start();
    } else if plan.Count() > 0 {
      FeedReaches(c, st, chain, plan.Start(), plan.Count(), network);
    }
  }

  /** A new client reaches every network height from 1 on in two rounds. */
  lemma {:induction false} FreshReachesNetwork(c: Crypto, st: State, chain: nat -> Header, network: nat)
    requires Honest(c, chain, network) && st.maxHeaders > 0
    requires st.headers == [] && st.currentHeight == 0 && network >= 1
    ensures var once := SyncRound(c, st, chain, network);
            && AtTip(once, chain, network - 1)
            && AtTip(SyncRound(c, once, chain, network), chain, network)
  {
    FirstRound(c, st, chain, network);
    RoundFromTip(c, SyncRound(c, st, chain, network), chain, network - 1, network);
  }

  /** The first round ends one below the network's height. */
  lemma {:induction false} FirstRound(c: Crypto, st: State, chain: nat -> Header, network: nat)
    requires Honest(c, chain, network) && st.maxHeaders > 0
    requires st.headers == [] && st.currentHeight == 0 && network >= 1
    ensures AtTip(SyncRound(c, st, chain, network), chain, network - 1)
    ensures SyncRound(c, st, chain, network).maxHeaders > 0
  {
    var plan := GetSyncStrategy(st, network);
    assert plan.Count() > 0 && plan.Start() + plan.Count() == network;
    FeedReaches(c, st, chain, plan.Start(), plan.Count(), network);
  }

  /** At height 0 there is nothing to plan, so the genesis header is never fetched. */
  lemma {:induction false} FreshStaysEmptyAtGenesis(c: Crypto, st: State, chain: nat -> Header)
    requires st.headers == []
    ensures SyncRound(c, st, chain, 0) == st
  {}

  // ------------------------------------------------------------- forks

  /** `detect_reorg`. */
  predicate DetectReorg(st: State, h: Header) {
    st.headers != [] && h.height == Last(st.headers).height + 1 && h.previousHash != Last(st.headers).blockHash
  }

  /** A fork is reported exactly for the headers, sound in themselves, that the continuity check refuses. */
  lemma {:induction false} ForkIsContinuityError(c: Crypto, st: State, h: Header)
    requires st.headers != [] && HeaderOk(c, h)
    ensures DetectReorg(st, h) <==> Validate(c, st.headers, h) == Some(Continuity)
  {}

  /** The sync loop rolls back to just below a header that forks off, but the header it forks from
      is at that height already: no header is dropped and the forking header is refused. */
  lemma {:induction false} ForkIsNeverFollowed(c: Crypto, st: State, h: Header)
    requires WindowInv(c, st) && DetectReorg(st, h)
    ensures var back := AfterRollback(st, h.height - 1);
            && back.headers == st.headers
            && Validate(c, back.headers, h) != None
            && AfterHeader(c, back, h) == back
  {}
}
