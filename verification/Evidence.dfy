/** Records of validator misbehaviour, strikes, and slashing. */
module Evidence {
  import opened Common
  import opened Sums

  const SLASHING_AMOUNT_PER_STRIKE: nat := 10
  const STRIKE_THRESHOLD: nat := 3

  datatype Kind = DoubleProposal | EquivocationOnBlock | ForkEquivocation | InvalidProposal | MissedBlocks
                | ConsensusViolation

  datatype Item = Item(kind: Kind, validator: Hash, height: nat, recordedAt: nat, slashed: bool)

  /** `ByzantineEvidence::new`. */
  function NewItem(kind: Kind, validator: Hash, height: nat, recordedAt: nat): Item {
    Item(kind, validator, height, recordedAt, false)
  }

  /** The Blake3 id of an item, over its validator, height, kind and time. */
  type IdOf = Item -> Hash

  datatype State = State(items: map<Hash, Item>, strikes: map<Hash, nat>, marked: set<Hash>, amounts: map<Hash, nat>)

  const EMPTY: State := State(map[], map[], {}, map[])

  function Record(idOf: IdOf, st: State, e: Item): State {
    if idOf(e) in st.items then st
    else
      var strikes := Get(st.strikes, e.validator) + 1;
      State(st.items[idOf(e) := e],
            st.strikes[e.validator := strikes],
            if strikes >= STRIKE_THRESHOLD then st.marked + {e.validator} else st.marked,
            st.amounts[e.validator := Get(st.amounts, e.validator) + SLASHING_AMOUNT_PER_STRIKE])
  }

  function MarkSlashed(items: map<Hash, Item>, validator: Hash): map<Hash, Item> {
    map id | id in items :: if items[id].validator == validator then items[id].(slashed := true) else items[id]
  }

  /** Slashing marks the validator's items and takes the validator off the list; strikes and amounts stay. */
  function Slash(st: State, validator: Hash): State {
    if validator !in st.marked then st
    else st.(items := MarkSlashed(st.items, validator), marked := st.marked - {validator})
  }

  class Recorder {
    var items: map<Hash, Item>
    var strikes: map<Hash, nat>
    var marked: set<Hash>
    var amounts: map<Hash, nat>

    ghost function View(): State
      reads this
    {
      State(items, strikes, marked, amounts)
    }

    constructor ()
      ensures View() == EMPTY
    {
      items, strikes, marked, amounts := map[], map[], {}, map[];
    }

    method RecordEvidence(idOf: IdOf, e: Item) returns (r: Option<Hash>)
      modifies this
      ensures View() == Record(idOf, old(View()), e)
      ensures r == if idOf(e) in old(items) then None else Some(idOf(e))
      ensures r == None ==> View() == old(View())
      ensures r.Some? ==> items == old(items)[r.value := e]
    {
      var id := idOf(e);
      if id in items {
        return None;
      }
      items := items[id := e];
      var s := Get(strikes, e.validator) + 1;
      strikes := strikes[e.validator := s];
      amounts := amounts[e.validator := Get(amounts, e.validator) + SLASHING_AMOUNT_PER_STRIKE];
      if s >= STRIKE_THRESHOLD {
        marked := marked + {e.validator};
      }
      r := Some(id);
    }

    method ExecuteSlashing(validator: Hash) returns (r: Option<nat>)
      modifies this
      ensures View() == Slash(old(View()), validator)
      ensures r == if validator in old(marked) then Some(Get(old(amounts), validator)) else None
      ensures r == None ==> View() == old(View())
      ensures r.Some? ==> marked == old(marked) - {validator} && strikes == old(strikes) && amounts == old(amounts)
      ensures items.Keys == old(items).Keys
      ensures r.Some? ==> forall id :: id in items ==>
                items[id] == if old(items)[id].validator == validator then old(items)[id].(slashed := true)
                             else old(items)[id]
    {
      if validator !in marked {
        return None;
      }
      r := Some(Get(amounts, validator));
      var rest := items.Keys;
      ghost var was := items;
      while rest != {}
        modifies `items
        invariant rest <= was.Keys && items.Keys == was.Keys
        invariant forall id :: id in was ==>
                    items[id] == if id in rest then was[id] else MarkSlashed(was, validator)[id]
        decreases rest
      {
        var id :| id in rest;
        rest := rest - {id};
        if items[id].validator == validator {
          items := items[id := items[id].(slashed := true)];
        }
      }
      marked := marked - {validator};
    }
  }

  // ------------------------------------------------------------- bookkeeping over runs

  /** The stored items against a validator. */
  function Against(items: map<Hash, Item>, validator: Hash): set<Hash> {
    set id | id in items && items[id].validator == validator
  }

  /** Some stored item against the validator has not been slashed yet. */
  predicate Outstanding(items: map<Hash, Item>, validator: Hash) {
    exists id :: id in items && items[id].validator == validator && !items[id].slashed
  }

  /** Strikes count the stored items, amounts are ten per strike, and a validator is marked exactly
      when it has three strikes and an item not yet slashed. */
  ghost predicate Consistent(st: State) {
    forall v: Hash :: ConsistentFor(st, v)
  }

  predicate ConsistentFor(st: State, v: Hash) {
    && Get(st.strikes, v) == |Against(st.items, v)|
    && Get(st.amounts, v) == 10 * Get(st.strikes, v)
    && (v in st.marked <==> Get(st.strikes, v) >= 3 && Outstanding(st.items, v))
  }

  lemma {:induction false} RecordConsistent(idOf: IdOf, st: State, e: Item, v: Hash)
    requires ConsistentFor(st, v) && !e.slashed
    ensures ConsistentFor(Record(idOf, st, e), v)
  {
    var id := idOf(e);
    if id !in st.items {
      var items := st.items[id := e];
      if v == e.validator {
        assert Against(items, v) == Against(st.items, v) + {id};
        assert id in items && items[id].validator == v && !items[id].slashed;
      } else {
        assert Against(items, v) == Against(st.items, v);
        assert forall i :: i in st.items ==> i in items && items[i] == st.items[i];
      }
    }
  }

  lemma {:induction false} SlashConsistent(st: State, validator: Hash, v: Hash)
    requires ConsistentFor(st, v)
    ensures ConsistentFor(Slash(st, validator), v)
  {
    if validator in st.marked {
      var items := MarkSlashed(st.items, validator);
      assert Against(items, v) == Against(st.items, v);
      if v != validator && Outstanding(st.items, v) {
        var id :| id in st.items && st.items[id].validator == v && !st.items[id].slashed;
        assert items[id] == st.items[id];
      }
    }
  }

  datatype Op = RecordOp(kind: Kind, validator: Hash, height: nat, recordedAt: nat) | SlashOp(validator: Hash)

  function Step(idOf: IdOf, st: State, op: Op): State {
    match op
    case RecordOp(k, v, h, t) => Record(idOf, st, NewItem(k, v, h, t))
    case SlashOp(v) => Slash(st, v)
  }

  function Run(idOf: IdOf, st: State, ops: seq<Op>): State {
    if ops == [] then st else Step(idOf, Run(idOf, st, ops[..|ops| - 1]), ops[|ops| - 1])
  }

  /** Every run of recordings and slashings keeps the books consistent, whatever ids Blake3 gives. */
  lemma {:induction false} RunConsistent(idOf: IdOf, st: State, ops: seq<Op>)
    requires Consistent(st)
    ensures Consistent(Run(idOf, st, ops))
    decreases |ops|
  {
    if ops != [] {
      var op := ops[|ops| - 1];
      RunConsistent(idOf, st, ops[..|ops| - 1]);
      var mid := Run(idOf, st, ops[..|ops| - 1]);
      forall v: Hash ensures ConsistentFor(Step(idOf, mid, op), v) {
        assert ConsistentFor(mid, v);
        match op
        case RecordOp(k, w, h, t) => RecordConsistent(idOf, mid, NewItem(k, w, h, t), v);
        case SlashOp(w) => SlashConsistent(mid, w, v);
      }
    }
  }

  lemma {:induction false} EmptyConsistent()
    ensures Consistent(EMPTY)
  {
    forall v: Hash ensures ConsistentFor(EMPTY, v) {
      assert Against(EMPTY.items, v) == {};
    }
  }

  /** What a slashing reports is ten per strike ever recorded, including those already slashed. */
  lemma {:induction false} SlashReportsAllStrikes(idOf: IdOf, ops: seq<Op>, v: Hash)
    ensures var st := Run(idOf, EMPTY, ops);
            Get(st.amounts, v) == 10 * |Against(st.items, v)|
  {
    EmptyConsistent();
    RunConsistent(idOf, EMPTY, ops);
    assert ConsistentFor(Run(idOf, EMPTY, ops), v);
  }

  /** Items are never dropped or altered by a run, except that a slashing marks them. */
  lemma {:induction false} RunKeepsItems(idOf: IdOf, st: State, ops: seq<Op>, id: Hash)
    requires id in st.items
    ensures id in Run(idOf, st, ops).items
    ensures Run(idOf, st, ops).items[id].(slashed := true) == st.items[id].(slashed := true)
    ensures st.items[id].slashed ==> Run(idOf, st, ops).items[id].slashed
    decreases |ops|
  {
    if ops != [] {
      RunKeepsItems(idOf, st, ops[..|ops| - 1], id);
    }
  }
}
