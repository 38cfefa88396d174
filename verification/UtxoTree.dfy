/** The sparse Merkle tree over unspent outputs, kept up to date one path at a time, and its inclusion
    proofs. */
module UtxoTree {
  import opened Common

  /** The circuit's two-to-one hash; nothing is assumed about it. */
  type PairHash = (Hash, Hash) -> Hash

  datatype NodeKey = NodeKey(level: nat, index: nat)

  type Nodes = map<NodeKey, Hash>
  type Leaves = map<nat, Hash>

  /** The hash of an empty subtree. */
  function Zero(hash: PairHash, level: nat): Hash
    decreases level
  {
    if level == 0 then ZERO_HASH else hash(Zero(hash, level - 1), Zero(hash, level - 1))
  }

  /** `get_merkle_node`. */
  function NodeAt(hash: PairHash, nodes: Nodes, level: nat, i: nat): Hash {
    if NodeKey(level, i) in nodes then nodes[NodeKey(level, i)] else Zero(hash, level)
  }

  function Leaf(leaves: Leaves, i: nat): Hash {
    if i in leaves then leaves[i] else ZERO_HASH
  }

  /** The reference: the subtree over leaves `i * 2^level` to `(i + 1) * 2^level - 1`, hashed in full. */
  function Subtree(hash: PairHash, leaves: Leaves, level: nat, i: nat): Hash
    decreases level
  {
    if level == 0 then Leaf(leaves, i)
    else hash(Subtree(hash, leaves, level - 1, 2 * i), Subtree(hash, leaves, level - 1, 2 * i + 1))
  }

  /** The position of leaf `i`'s ancestor. */
  function Ancestor(i: nat, level: nat): nat
    decreases level
  {
    if level == 0 then i else Ancestor(i, level - 1) / 2
  }

  /** `i ^ 1`. */
  function Sibling(i: nat): nat {
    if i % 2 == 0 then i + 1 else i - 1
  }

  function Combine(hash: PairHash, i: nat, h: Hash, sibling: Hash): Hash {
    if i % 2 == 0 then hash(h, sibling) else hash(sibling, h)
  }

  /** Every stored or defaulted node of a level is the hash of its whole subtree. */
  ghost predicate LevelOk(hash: PairHash, nodes: Nodes, leaves: Leaves, level: nat) {
    forall i: nat :: NodeAt(hash, nodes, level, i) == Subtree(hash, leaves, level, i)
  }

  /** The levels below `level` are right. */
  ghost predicate OkBelow(hash: PairHash, nodes: Nodes, leaves: Leaves, level: nat) {
    forall l: nat :: l < level ==> LevelOk(hash, nodes, leaves, l)
  }

  /** The levels from `level` up to the root's are right. */
  ghost predicate OkFrom(hash: PairHash, nodes: Nodes, leaves: Leaves, level: nat, depth: nat) {
    forall l: nat :: level <= l <= depth ==> LevelOk(hash, nodes, leaves, l)
  }

  /** A tree of the given depth is right throughout. */
  ghost predicate TreeOk(hash: PairHash, depth: nat, nodes: Nodes, leaves: Leaves) {
    OkBelow(hash, nodes, leaves, depth + 1)
  }

  lemma {:induction false} EmptySubtree(hash: PairHash, level: nat, i: nat)
    ensures Subtree(hash, map[], level, i) == Zero(hash, level)
    decreases level
  {
    if level > 0 {
      EmptySubtree(hash, level - 1, 2 * i);
      EmptySubtree(hash, level - 1, 2 * i + 1);
    }
  }

  lemma {:induction false} EmptyTreeOk(hash: PairHash, depth: nat)
    ensures TreeOk(hash, depth, map[], map[])
  {
    forall level: nat, i: nat ensures NodeAt(hash, map[], level, i) == Subtree(hash, map[], level, i) {
      EmptySubtree(hash, level, i);
    }
  }

  /** A leaf only affects its ancestors. */
  lemma {:induction false} OtherSubtree(hash: PairHash, leaves: Leaves, i: nat, h: Hash, level: nat, j: nat)
    requires j != Ancestor(i, level)
    ensures Subtree(hash, leaves[i := h], level, j) == Subtree(hash, leaves, level, j)
    decreases level
  {
    if level > 0 {
      OtherSubtree(hash, leaves, i, h, level - 1, 2 * j);
      OtherSubtree(hash, leaves, i, h, level - 1, 2 * j + 1);
    }
  }

  /** The ancestor's subtree is the combination of the child on the path and its sibling. */
  lemma {:induction false} ParentSubtree(hash: PairHash, leaves: Leaves, level: nat, i: nat)
    ensures Subtree(hash, leaves, level + 1, i / 2)
         == Combine(hash, i, Subtree(hash, leaves, level, i), Subtree(hash, leaves, level, Sibling(i)))
  {
    assert i % 2 == 0 ==> 2 * (i / 2) == i;
    assert i % 2 == 1 ==> 2 * (i / 2) + 1 == i;
  }

  /** Writing the new subtree hash at the ancestor makes the level right for the new leaf. */
  lemma {:induction false} LevelWritten(hash: PairHash, nodes: Nodes, leaves: Leaves, level: nat, i: nat, h: Hash)
    requires LevelOk(hash, nodes, leaves, level)
    ensures var a := Ancestor(i, level);
            var nodes' := nodes[NodeKey(level, a) := Subtree(hash, leaves[i := h], level, a)];
            LevelOk(hash, nodes', leaves[i := h], level)
  {
    var a := Ancestor(i, level);
    var nodes' := nodes[NodeKey(level, a) := Subtree(hash, leaves[i := h], level, a)];
    forall j: nat ensures NodeAt(hash, nodes', level, j) == Subtree(hash, leaves[i := h], level, j) {
      if j != a {
        OtherSubtree(hash, leaves, i, h, level, j);
        assert NodeAt(hash, nodes, level, j) == Subtree(hash, leaves, level, j);
      }
    }
  }

  lemma {:induction false} OtherLevel(hash: PairHash, nodes: Nodes, leaves: Leaves, level: nat, key: NodeKey, h: Hash)
    requires LevelOk(hash, nodes, leaves, level) && key.level != level
    ensures LevelOk(hash, nodes[key := h], leaves, level)
  {
    forall j: nat ensures NodeAt(hash, nodes[key := h], level, j) == Subtree(hash, leaves, level, j) {
      assert NodeAt(hash, nodes, level, j) == Subtree(hash, leaves, level, j);
    }
  }

  /** One turn of the path update: the written level becomes right for the new leaf. */
  lemma {:induction false} PathStep(hash: PairHash, nodes: Nodes, leaves: Leaves, depth: nat, level: nat,
                                    i: nat, h: Hash)
    requires level <= depth
    requires OkBelow(hash, nodes, leaves[i := h], level) && OkFrom(hash, nodes, leaves, level, depth)
    ensures var a := Ancestor(i, level);
            var nodes' := nodes[NodeKey(level, a) := Subtree(hash, leaves[i := h], level, a)];
            && LevelOk(hash, nodes', leaves[i := h], level)
            && OkBelow(hash, nodes', leaves[i := h], level + 1)
            && OkFrom(hash, nodes', leaves, level + 1, depth)
  {
    var a, after := Ancestor(i, level), leaves[i := h];
    var key, value := NodeKey(level, a), Subtree(hash, after, level, a);
    var nodes' := nodes[key := value];
    assert LevelOk(hash, nodes, leaves, level);
    LevelWritten(hash, nodes, leaves, level, i, h);
    forall l: nat | l < level ensures LevelOk(hash, nodes', after, l) {
      OtherLevel(hash, nodes, after, l, key, value);
    }
    forall l: nat | level < l <= depth ensures LevelOk(hash, nodes', leaves, l) {
      OtherLevel(hash, nodes, leaves, l, key, value);
    }
  }

  /** Writing the root node leaves the levels below alone. */
  lemma {:induction false} RootStep(hash: PairHash, nodes: Nodes, leaves: Leaves, depth: nat, h: Hash)
    requires OkBelow(hash, nodes, leaves, depth)
    ensures OkBelow(hash, nodes[NodeKey(depth, 0) := h], leaves, depth)
  {
    var nodes' := nodes[NodeKey(depth, 0) := h];
    forall l: nat | l < depth ensures LevelOk(hash, nodes', leaves, l) {
      OtherLevel(hash, nodes, leaves, l, NodeKey(depth, 0), h);
    }
  }

  /** `update_merkle_path` from a level on, where the path is at `index` with hash `current`: writes the
      node, reads its sibling and goes on with their parent; the top is always written at index 0. */
  function Climb(hash: PairHash, depth: nat, nodes: Nodes, level: nat, index: nat, current: Hash): Nodes
    requires level <= depth
    decreases depth - level
  {
    if level == depth then nodes[NodeKey(depth, 0) := current]
    else
      var written := nodes[NodeKey(level, index) := current];
      Climb(hash, depth, written, level + 1, index / 2,
            Combine(hash, index, current, NodeAt(hash, written, level, Sibling(index))))
  }

  /** The nodes after leaf `i` is set to `h`. */
  function PathUpdated(hash: PairHash, depth: nat, nodes: Nodes, i: nat, h: Hash): Nodes {
    Climb(hash, depth, nodes, 0, i, h)
  }

  method UpdatePath(hash: PairHash, depth: nat, nodes: Nodes, i: nat, h: Hash) returns (r: Nodes)
    ensures r == PathUpdated(hash, depth, nodes, i, h)
  {
    r := nodes;
    var current, index := h, i;
    for level := 0 to depth
      invariant Climb(hash, depth, r, level, index, current) == PathUpdated(hash, depth, nodes, i, h)
    {
      r := r[NodeKey(level, index) := current];
      var sibling := NodeAt(hash, r, level, Sibling(index));
      current := Combine(hash, index, current, sibling);
      index := index / 2;
    }
    r := r[NodeKey(depth, 0) := current];
  }

  lemma {:induction false} ClimbStep(hash: PairHash, depth: nat, nodes: Nodes, leaves: Leaves, level: nat,
                                     i: nat, h: Hash)
    requires level < depth
    requires OkBelow(hash, nodes, leaves[i := h], level) && OkFrom(hash, nodes, leaves, level, depth)
    ensures var after := leaves[i := h];
            var index := Ancestor(i, level);
            var current := Subtree(hash, after, level, index);
            var written := nodes[NodeKey(level, index) := current];
            && OkBelow(hash, written, after, level + 1) && OkFrom(hash, written, leaves, level + 1, depth)
            && Combine(hash, index, current, NodeAt(hash, written, level, Sibling(index)))
               == Subtree(hash, after, level + 1, index / 2)
  {
    PathStep(hash, nodes, leaves, depth, level, i, h);
    ParentSubtree(hash, leaves[i := h], level, Ancestor(i, level));
  }

  lemma {:induction false} ClimbOk(hash: PairHash, depth: nat, nodes: Nodes, leaves: Leaves, level: nat,
                                   i: nat, h: Hash)
    requires level <= depth
    requires OkBelow(hash, nodes, leaves[i := h], level) && OkFrom(hash, nodes, leaves, level, depth)
    ensures var after := leaves[i := h];
            var a := Ancestor(i, level);
            var r := Climb(hash, depth, nodes, level, a, Subtree(hash, after, level, a));
            && OkBelow(hash, r, after, depth)
            && NodeAt(hash, r, depth, 0) == Subtree(hash, after, depth, Ancestor(i, depth))
            && (Ancestor(i, depth) == 0 ==> TreeOk(hash, depth, r, after))
    decreases depth - level
  {
    if level == depth {
      RootStep(hash, nodes, leaves[i := h], depth, Subtree(hash, leaves[i := h], depth, Ancestor(i, depth)));
      PathStep(hash, nodes, leaves, depth, depth, i, h);
    } else {
      var index := Ancestor(i, level);
      var current := Subtree(hash, leaves[i := h], level, index);
      ClimbStep(hash, depth, nodes, leaves, level, i, h);
      ClimbOk(hash, depth, nodes[NodeKey(level, index) := current], leaves, level + 1, i, h);
    }
  }

  /** Rewriting one path keeps every node the hash of its whole subtree, for the changed leaf. The root node
      ends up holding the subtree of the leaf's ancestor at the top level, which is the whole tree when the
      leaf is within capacity and another subtree when it is past it. */
  lemma {:induction false} PathKeepsTree(hash: PairHash, depth: nat, nodes: Nodes, leaves: Leaves, i: nat, h: Hash)
    requires TreeOk(hash, depth, nodes, leaves)
    ensures var r := PathUpdated(hash, depth, nodes, i, h);
            && OkBelow(hash, r, leaves[i := h], depth)
            && NodeAt(hash, r, depth, 0) == Subtree(hash, leaves[i := h], depth, Ancestor(i, depth))
            && (i < Pow2(depth) ==> TreeOk(hash, depth, r, leaves[i := h]))
  {
    UnderRoot(i, depth, 0);
    ClimbOk(hash, depth, nodes, leaves, 0, i, h);
  }

  /** A leaf is under the root exactly when its position is below two to the depth. */
  lemma {:induction false} UnderRoot(i: nat, depth: nat, k: nat)
    ensures Ancestor(i, depth) < Pow2(k) <==> i < Pow2(depth + k)
    decreases depth
  {
    if depth > 0 {
      UnderRoot(i, depth - 1, k + 1);
      assert Ancestor(i, depth - 1) / 2 < Pow2(k) <==> Ancestor(i, depth - 1) < 2 * Pow2(k);
    }
  }

  // ------------------------------------------------------------- proofs

  /** The verifier's fold: the position's bits say on which side each sibling goes. */
  function FoldProof(hash: PairHash, h: Hash, i: nat, siblings: seq<Hash>): Hash
    decreases |siblings|
  {
    if siblings == [] then h
    else FoldProof(hash, Combine(hash, i, h, siblings[0]), i / 2, siblings[1..])
  }

  /** The siblings of the path from position `i` of level `from`, `count` levels up. */
  function Path(hash: PairHash, nodes: Nodes, from: nat, i: nat, count: nat): (p: seq<Hash>)
    ensures |p| == count
    decreases count
  {
    if count == 0 then []
    else [NodeAt(hash, nodes, from, Sibling(i))] + Path(hash, nodes, from + 1, i / 2, count - 1)
  }

  /** The proof loop of `get_utxo_merkle_proof`. */
  method Siblings(hash: PairHash, depth: nat, nodes: Nodes, i: nat) returns (p: seq<Hash>)
    ensures p == Path(hash, nodes, 0, i, depth)
  {
    p := [];
    var index := i;
    for level := 0 to depth
      invariant p + Path(hash, nodes, level, index, depth - level) == Path(hash, nodes, 0, i, depth)
    {
      var sibling := NodeAt(hash, nodes, level, Sibling(index));
      var rest := Path(hash, nodes, level + 1, index / 2, depth - level - 1);
      assert p + ([sibling] + rest) == p + [sibling] + rest;
      p := p + [sibling];
      index := index / 2;
    }
  }

  /** Served siblings lead from any node of a right tree to the root above it. */
  lemma {:induction false} PathVerifies(hash: PairHash, nodes: Nodes, leaves: Leaves, from: nat, i: nat, count: nat)
    requires OkBelow(hash, nodes, leaves, from + count)
    ensures FoldProof(hash, Subtree(hash, leaves, from, i), i, Path(hash, nodes, from, i, count))
         == Subtree(hash, leaves, from + count, Ancestor(i, count))
    decreases count
  {
    if count > 0 {
      assert LevelOk(hash, nodes, leaves, from);
      ParentSubtree(hash, leaves, from, i);
      PathVerifies(hash, nodes, leaves, from + 1, i / 2, count - 1);
      AncestorShift(i, count - 1);
      assert Path(hash, nodes, from, i, count)[1..] == Path(hash, nodes, from + 1, i / 2, count - 1);
    }
  }

  lemma {:induction false} AncestorShift(i: nat, level: nat)
    ensures Ancestor(i / 2, level) == Ancestor(i, level + 1)
    decreases level
  {
    if level > 0 {
      AncestorShift(i, level - 1);
    }
  }

  /** `(a, b)` and `(c, d)` hash alike though they differ. */
  predicate Collision(hash: PairHash, a: Hash, b: Hash, c: Hash, d: Hash) {
    (a != c || b != d) && hash(a, b) == hash(c, d)
  }

  lemma {:induction false} FoldBinds(hash: PairHash, h: Hash, p: seq<Hash>, h': Hash, p': seq<Hash>, i: nat)
    returns (a: Hash, b: Hash, c: Hash, d: Hash)
    requires |p| == |p'| && FoldProof(hash, h, i, p) == FoldProof(hash, h', i, p')
    ensures (h == h' && p == p') || Collision(hash, a, b, c, d)
    decreases |p|
  {
    a, b, c, d := ZERO_HASH, ZERO_HASH, ZERO_HASH, ZERO_HASH;
    if p != [] {
      var up, up' := Combine(hash, i, h, p[0]), Combine(hash, i, h', p'[0]);
      if up == up' && (h != h' || p[0] != p'[0]) {
        if i % 2 == 0 {
          a, b, c, d := h, p[0], h', p'[0];
        } else {
          a, b, c, d := p[0], h, p'[0], h';
        }
      } else {
        a, b, c, d := FoldBinds(hash, up, p[1..], up', p'[1..], i / 2);
        assert p == [p[0]] + p[1..] && p' == [p'[0]] + p'[1..];
      }
    }
  }

  /** Inclusion proofs are complete and sound: the served siblings prove the leaf at position `i`, and
      any other leaf or siblings accepted for that position exhibit a collision of the pair hash. */
  lemma {:induction false} ProofsAreExact(hash: PairHash, depth: nat, nodes: Nodes, leaves: Leaves, i: nat, h: Hash,
                                          p: seq<Hash>)
    returns (a: Hash, b: Hash, c: Hash, d: Hash)
    requires TreeOk(hash, depth, nodes, leaves) && i < Pow2(depth) && |p| == depth
    ensures NodeAt(hash, nodes, depth, 0) == Subtree(hash, leaves, depth, 0)
    ensures h == Leaf(leaves, i) && p == Path(hash, nodes, 0, i, depth) ==>
              FoldProof(hash, h, i, p) == NodeAt(hash, nodes, depth, 0)
    ensures FoldProof(hash, h, i, p) == NodeAt(hash, nodes, depth, 0) ==>
              (h == Leaf(leaves, i) && p == Path(hash, nodes, 0, i, depth)) || Collision(hash, a, b, c, d)
  {
    a, b, c, d := ZERO_HASH, ZERO_HASH, ZERO_HASH, ZERO_HASH;
    assert LevelOk(hash, nodes, leaves, depth);
    UnderRoot(i, depth, 0);
    PathVerifies(hash, nodes, leaves, 0, i, depth);
    if FoldProof(hash, h, i, p) == NodeAt(hash, nodes, depth, 0) {
      a, b, c, d := FoldBinds(hash, h, p, Leaf(leaves, i), Path(hash, nodes, 0, i, depth), i);
    }
  }

  /** The smallest tree written out: the even position is hashed on the left, on the path and in the proof. */
  lemma {:induction false} TreeOfTwo(hash: PairHash, x: Hash, y: Hash)
    ensures Subtree(hash, map[0 := x, 1 := y], 1, 0) == hash(x, y)
    ensures FoldProof(hash, x, 0, [y]) == hash(x, y) && FoldProof(hash, y, 1, [x]) == hash(x, y)
    ensures Zero(hash, 0) == ZERO_HASH && Zero(hash, 1) == hash(ZERO_HASH, ZERO_HASH)
  {
    assert [x][1..] == [] && [y][1..] == [];
    assert FoldProof(hash, x, 0, [y]) == FoldProof(hash, hash(x, y), 0, []);
    assert FoldProof(hash, y, 1, [x]) == FoldProof(hash, hash(x, y), 0, []);
  }
}
