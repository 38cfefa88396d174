/** The store behind the tree of unspent outputs: outputs are put and deleted in a block in progress, which
    is committed one database tree at a time. */
module UtxoStore {
  import opened Common
  import opened UtxoTree

  datatype OutPoint = OutPoint(txHash: Hash, index: nat)

  /** The four persistent trees behind the Merkle tree. */
  datatype Layer = Layer(nodes: Nodes, leaves: Leaves, index: map<OutPoint, nat>, next: nat)

  /** A block in progress: the layer it will commit, and the positions of the outputs it has put. */
  datatype Work = Work(layer: Layer, indexed: map<OutPoint, nat>)

  datatype TreeOp = Put(op: OutPoint, leaf: Hash) | Delete(op: OutPoint)

  const EMPTY: Layer := Layer(map[], map[], map[], 0)

  // ------------------------------------------------------------- operations on a block in progress

  function Begun(base: Layer): Work {
    Work(base, map[])
  }

  /** Sets the leaf at a position and rewrites its path. */
  function SetLeaf(hash: PairHash, depth: nat, l: Layer, i: nat, h: Hash): Layer {
    l.(nodes := PathUpdated(hash, depth, l.nodes, i, h), leaves := l.leaves[i := h])
  }

  /** Where a delete finds the output: among those put by the block, or else in the committed index. */
  function PositionOf(base: Layer, w: Work, op: OutPoint): Option<nat> {
    if op in w.indexed then Some(w.indexed[op]) else if op in base.index then Some(base.index[op]) else None
  }

  /** One operation over the committed layer `base`; a put of an output with a position is refused. */
  function Apply(hash: PairHash, depth: nat, base: Layer, w: Work, t: TreeOp): Option<Work> {
    match t
    case Put(op, leaf) =>
      if PositionOf(base, w, op).Some? then None
      else
        var i := w.layer.next;
        var l := SetLeaf(hash, depth, w.layer, i, leaf);
        Some(Work(l.(index := l.index[op := i], next := i + 1), w.indexed[op := i]))
    case Delete(op) =>
      var i := PositionOf(base, w, op);
      if i == None then Some(w)
      else
        var l := SetLeaf(hash, depth, w.layer, i.value, ZERO_HASH);
        Some(Work(l.(index := l.index - {op}), w.indexed - {op}))
  }

  /** A block's operations in order, up to the first that is refused. */
  function Replay(hash: PairHash, depth: nat, base: Layer, ts: seq<TreeOp>): Option<Work> {
    if ts == [] then Some(Begun(base))
    else match Replay(hash, depth, base, ts[..|ts| - 1])
      case None => None
      case Some(w) => Apply(hash, depth, base, w, Last(ts))
  }

  // ------------------------------------------------------------- what the operations keep

  /** The nodes are right for the leaves, and every indexed output has a position of its own among
      those handed out. */
  ghost predicate LayerOk(hash: PairHash, depth: nat, l: Layer) {
    && TreeOk(hash, depth, l.nodes, l.leaves)
    && l.next <= Pow2(depth)
    && (forall op :: op in l.index ==> l.index[op] < l.next)
    && (forall op, op' :: op in l.index && op' in l.index && op != op' ==> l.index[op] != l.index[op'])
  }

  /** What a layer means: the leaf of every indexed output. */
  function Live(l: Layer): map<OutPoint, Hash> {
    map op | op in l.index :: Leaf(l.leaves, l.index[op])
  }

  /** How a block in progress relates to the committed layer: the outputs it has put are at new positions,
      and the others are where they were. */
  ghost predicate Staging(base: Layer, w: Work) {
    && base.next <= w.layer.next
    && (forall op :: op in w.indexed ==> op in w.layer.index && w.indexed[op] == w.layer.index[op] >= base.next)
    && (forall op :: op in w.layer.index && op !in w.indexed ==>
          op in base.index && base.index[op] == w.layer.index[op])
    && (forall op :: op in w.indexed ==> op !in base.index)
  }

  /** The committed layer and the block in progress are both right. */
  ghost predicate WorkOk(hash: PairHash, depth: nat, base: Layer, w: Work) {
    LayerOk(hash, depth, base) && LayerOk(hash, depth, w.layer) && Staging(base, w)
  }

  /** Within capacity a put keeps everything right and adds exactly this output. */
  lemma {:induction false} PutOk(hash: PairHash, depth: nat, base: Layer, w: Work, op: OutPoint, leaf: Hash)
    requires WorkOk(hash, depth, base, w) && Apply(hash, depth, base, w, Put(op, leaf)).Some?
    ensures var w' := Apply(hash, depth, base, w, Put(op, leaf)).value;
            && Live(w'.layer) == Live(w.layer)[op := leaf]
            && (w.layer.next < Pow2(depth) ==> WorkOk(hash, depth, base, w'))
  {
    var l := w.layer;
    PathKeepsTree(hash, depth, l.nodes, l.leaves, l.next, leaf);
    PutLive(l, op, leaf, PathUpdated(hash, depth, l.nodes, l.next, leaf));
    PutStaging(hash, depth, base, w, op, leaf);
  }

  lemma {:induction false} PutStaging(hash: PairHash, depth: nat, base: Layer, w: Work, op: OutPoint, leaf: Hash)
    requires Staging(base, w) && Apply(hash, depth, base, w, Put(op, leaf)).Some?
    ensures Staging(base, Apply(hash, depth, base, w, Put(op, leaf)).value)
  {}

  lemma {:induction false} PutLive(l: Layer, op: OutPoint, leaf: Hash, nodes: Nodes)
    requires op !in l.index && forall o :: o in l.index ==> l.index[o] < l.next
    ensures Live(Layer(nodes, l.leaves[l.next := leaf], l.index[op := l.next], l.next + 1)) == Live(l)[op := leaf]
  {}

  /** A delete keeps everything right and removes exactly this output. */
  lemma {:induction false} DeleteOk(hash: PairHash, depth: nat, base: Layer, w: Work, op: OutPoint)
    requires WorkOk(hash, depth, base, w)
    ensures var w' := Apply(hash, depth, base, w, Delete(op));
            && w'.Some? && WorkOk(hash, depth, base, w'.value)
            && Live(w'.value.layer) == Live(w.layer) - {op}
  {
    var i := PositionOf(base, w, op);
    if i == None {
      assert Live(w.layer) - {op} == Live(w.layer);
    } else {
      var nodes := PathUpdated(hash, depth, w.layer.nodes, i.value, ZERO_HASH);
      PathKeepsTree(hash, depth, w.layer.nodes, w.layer.leaves, i.value, ZERO_HASH);
      DeleteLive(w.layer, op, i.value, nodes);
    }
  }

  lemma {:induction false} DeleteLive(l: Layer, op: OutPoint, i: nat, nodes: Nodes)
    requires forall o :: o in l.index && o != op ==> l.index[o] != i
    ensures Live(Layer(nodes, l.leaves[i := ZERO_HASH], l.index - {op}, l.next)) == Live(l) - {op}
  {}

  // ------------------------------------------------------------- commit

  datatype BeginError = AlreadyActive | InvalidHeight(expected: nat)

  /** What a commit leaves when only the first `landed` of the four batches reach the database: leaves, index,
      next position and nodes, in this order. */
  function Landed(base: Layer, staged: Layer, landed: nat): Layer {
    Layer(if landed >= 4 then staged.nodes else base.nodes,
          if landed >= 1 then staged.leaves else base.leaves,
          if landed >= 2 then staged.index else base.index,
          if landed >= 3 then staged.next else base.next)
  }

  class TreeStore {
    const depth: nat
    /** The height of the last complete block, and of the block in progress. */
    var latest: Option<nat>
    var height: nat
    var committed: Layer
    var active: bool
    var staged: Layer
    var indexed: map<OutPoint, nat>

    /** The block in progress. */
    ghost function Progress(): Work
      reads this
    {
      Work(staged, indexed)
    }

    /** The trees are right; so they are except after a commit that landed in part. */
    ghost predicate Valid(hash: PairHash)
      reads this
    {
      LayerOk(hash, depth, committed) && (active ==> WorkOk(hash, depth, committed, Progress()))
    }

    constructor (hash: PairHash, depth: nat)
      ensures Valid(hash) && this.depth == depth && latest == None && committed == EMPTY && !active
    {
      this.depth, latest, height, committed, active, staged, indexed := depth, None, 0, EMPTY, false, EMPTY, map[];
      EmptyTreeOk(hash, depth);
    }

    /** The height the next block must have. */
    function Expected(): nat
      reads this
    {
      if latest.Some? then latest.value + 1 else 0
    }

    method BeginBlock(height: nat) returns (r: Result<(), BeginError>)
      modifies `active, `staged, `indexed, `height
      ensures r == if old(active) then Err(AlreadyActive)
                   else if height != Expected() then Err(InvalidHeight(Expected()))
                   else Ok(())
      ensures r.Ok? <==> !old(active) && (if latest == None then height == 0 else height == latest.value + 1)
      ensures r.Ok? ==> active && Progress() == Begun(committed) && this.height == height
      ensures r.Err? ==> active == old(active) && Progress() == old(Progress()) && this.height == old(this.height)
      ensures forall hash :: old(Valid(hash)) ==> Valid(hash)
    {
      if active {
        return Err(AlreadyActive);
      }
      if height != Expected() {
        return Err(InvalidHeight(Expected()));
      }
      active, staged, indexed := true, committed, map[];
      this.height := height;
      r := Ok(());
    }

    /** Gives an output the next position. Refused without a block in progress and for an output that has a
        position; within capacity, a right store stays right and gains exactly this leaf. */
    method PutLeaf(hash: PairHash, op: OutPoint, leaf: Hash) returns (r: Option<nat>)
      modifies `staged, `indexed
      ensures r.Some? <==> active && Apply(hash, depth, committed, old(Progress()), Put(op, leaf)).Some?
      ensures r.Some? <==> active && op !in old(indexed) && op !in committed.index
      ensures r.Some? ==> Apply(hash, depth, committed, old(Progress()), Put(op, leaf)) == Some(Progress())
      ensures r.Some? ==> r.value == old(staged).next
      ensures r == None ==> Progress() == old(Progress())
      ensures r.Some? && old(Valid(hash)) ==> Live(staged) == old(Live(staged))[op := leaf]
      ensures r.Some? && old(Valid(hash)) && r.value < Pow2(depth) ==> Valid(hash)
    {
      if !active || op in indexed || op in committed.index {
        return None;
      }
      if Valid(hash) {
        PutOk(hash, depth, committed, Progress(), op, leaf);
      }
      var i := staged.next;
      var nodes := UpdatePath(hash, depth, staged.nodes, i, leaf);
      staged := Layer(nodes, staged.leaves[i := leaf], staged.index[op := i], i + 1);
      indexed := indexed[op := i];
      r := Some(i);
    }

    /** Zeroes an output's leaf and forgets its position; an output without one is left alone. */
    method DeleteLeaf(hash: PairHash, op: OutPoint) returns (ok: bool)
      modifies `staged, `indexed
      ensures ok == active
      ensures ok ==> Apply(hash, depth, committed, old(Progress()), Delete(op)) == Some(Progress())
      ensures !ok ==> Progress() == old(Progress())
      ensures old(Valid(hash)) ==> Valid(hash)
      ensures ok && old(Valid(hash)) ==> Live(staged) == old(Live(staged)) - {op}
    {
      ok := active;
      if !active {
        return;
      }
      if Valid(hash) {
        DeleteOk(hash, depth, committed, Progress(), op);
      }
      if op !in indexed && op !in committed.index {
        return;
      }
      var i := if op in indexed then indexed[op] else committed.index[op];
      var nodes := UpdatePath(hash, depth, staged.nodes, i, ZERO_HASH);
      staged := Layer(nodes, staged.leaves[i := ZERO_HASH], staged.index - {op}, staged.next);
      indexed := indexed - {op};
    }

    /** Applies the batches one tree at a time: `landed` of the four reach the database, and `rest` says
        whether everything else does too. The latest height is written last. */
    method CommitBlock(landed: nat, rest: bool) returns (ok: bool)
      modifies `active, `committed, `latest
      ensures !active && ok == (old(active) && landed >= 4 && rest)
      ensures committed == if old(active) then Landed(old(committed), old(staged), landed) else old(committed)
      ensures old(active) ==>
                && committed.leaves == (if landed == 0 then old(committed.leaves) else old(staged.leaves))
                && committed.index == (if landed < 2 then old(committed.index) else old(staged.index))
                && committed.next == (if landed < 3 then old(committed.next) else old(staged.next))
                && committed.nodes == (if landed < 4 then old(committed.nodes) else old(staged.nodes))
      ensures latest == if ok then Some(height) else old(latest)
      ensures ok ==> committed == old(staged)
      ensures forall hash :: old(Valid(hash)) && (!old(active) || landed == 0 || landed >= 4) ==> Valid(hash)
    {
      ok := active && landed >= 4 && rest;
      if active {
        committed := Landed(committed, staged, landed);
      }
      if ok {
        latest := Some(height);
      }
      active := false;
    }

    method RollbackBlock() returns (ok: bool)
      modifies `active
      ensures !active && ok == old(active)
      ensures forall hash :: old(Valid(hash)) ==> Valid(hash)
    {
      ok := active;
      active := false;
    }

    /** Serves the proof of a committed output against the nodes in view, those of the block in progress
        if there is one. In a right store it verifies for the leaf in view at that position. */
    method GetProof(hash: PairHash, op: OutPoint) returns (r: Option<(nat, seq<Hash>, Hash)>)
      ensures r.Some? <==> op in committed.index
      ensures r.Some? ==>
                var view := if active then staged else committed;
                var (i, siblings, root) := r.value;
                && i == committed.index[op]
                && siblings == Path(hash, view.nodes, 0, i, depth) && root == NodeAt(hash, view.nodes, depth, 0)
      ensures r.Some? && Valid(hash) ==>
                var view := if active then staged else committed;
                var (i, siblings, root) := r.value;
                && root == Subtree(hash, view.leaves, depth, 0)
                && FoldProof(hash, Leaf(view.leaves, i), i, siblings) == root
                && (op in view.index ==> FoldProof(hash, Live(view)[op], i, siblings) == root)
    {
      if op !in committed.index {
        return None;
      }
      var i := committed.index[op];
      var nodes := if active then staged.nodes else committed.nodes;
      var siblings := Siblings(hash, depth, nodes, i);
      if Valid(hash) {
        ghost var leaves := if active then staged.leaves else committed.leaves;
        var _, _, _, _ := ProofsAreExact(hash, depth, nodes, leaves, i, Leaf(leaves, i), siblings);
      }
      r := Some((i, siblings, NodeAt(hash, nodes, depth, 0)));
    }
  }
}
