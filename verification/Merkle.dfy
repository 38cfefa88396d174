/** The transaction Merkle tree of the light client: the root builder
    (`compute_merkle_root_from_transactions`) and the proof check (`verify_merkle_proof`). */
module Merkle {
  import opened Common

  /** Blake3 truncated to 32 bytes; nothing is assumed about it. */
  type Hasher = Bytes -> Hash

  function Parent(blake3: Hasher, left: Hash, right: Hash): Hash {
    blake3(Join(left, right))
  }

  /** The right partner of node `2i` in a level: its neighbour, or itself at an odd end. */
  function RightOf(hs: seq<Hash>, i: nat): Hash
    requires 2 * i < |hs|
  {
    if 2 * i + 1 < |hs| then hs[2 * i + 1] else hs[2 * i]
  }

  /** The first `m` nodes of the level above `hs`. */
  function LevelPrefix(blake3: Hasher, hs: seq<Hash>, m: nat): (up: seq<Hash>)
    requires m <= (|hs| + 1) / 2
    ensures |up| == m
    decreases m
  {
    if m == 0 then []
    else LevelPrefix(blake3, hs, m - 1) + [Parent(blake3, hs[2 * (m - 1)], RightOf(hs, m - 1))]
  }

  /** The level above `hs`. */
  function Level(blake3: Hasher, hs: seq<Hash>): (up: seq<Hash>)
    ensures |up| == (|hs| + 1) / 2
  {
    LevelPrefix(blake3, hs, (|hs| + 1) / 2)
  }

  lemma {:induction false} LevelPrefixIndex(blake3: Hasher, hs: seq<Hash>, m: nat, i: nat)
    requires i < m <= (|hs| + 1) / 2
    ensures LevelPrefix(blake3, hs, m)[i] == Parent(blake3, hs[2 * i], RightOf(hs, i))
    decreases m
  {
    if i < m - 1 {
      LevelPrefixIndex(blake3, hs, m - 1, i);
    }
  }

  lemma {:induction false} LevelIndex(blake3: Hasher, hs: seq<Hash>, i: nat)
    requires i < (|hs| + 1) / 2
    ensures Level(blake3, hs)[i] == Parent(blake3, hs[2 * i], RightOf(hs, i))
  {
    LevelPrefixIndex(blake3, hs, (|hs| + 1) / 2, i);
  }

  /** The level `k` steps above the leaves. */
  function LevelAt(blake3: Hasher, hs: seq<Hash>, k: nat): seq<Hash>
    decreases k
  {
    if k == 0 then hs else LevelAt(blake3, Level(blake3, hs), k - 1)
  }

  function Root(blake3: Hasher, hs: seq<Hash>): Hash
    requires hs != []
    decreases |hs|
  {
    if |hs| == 1 then hs[0] else Root(blake3, Level(blake3, hs))
  }

  function Depth(n: nat): nat
    requires n > 0
  {
    if n == 1 then 0 else 1 + Depth((n + 1) / 2)
  }

  // ---------------------------------------------------------------- root builder

  /** One pass over the level in chunks of two. */
  method BuildLevel(blake3: Hasher, hs: seq<Hash>) returns (next: seq<Hash>)
    ensures next == Level(blake3, hs)
  {
    next := [];
    var i := 0;
    while i < |hs|
      invariant i == 2 * |next| && |next| <= (|hs| + 1) / 2
      invariant next == LevelPrefix(blake3, hs, |next|)
    {
      var left := hs[i];
      var right := if i + 1 < |hs| then hs[i + 1] else left;
      next := next + [Parent(blake3, left, right)];
      i := i + 2;
    }
  }

  method ComputeMerkleRoot(blake3: Hasher, txHashes: seq<Hash>) returns (root: Hash)
    ensures root == if txHashes == [] then ZERO_HASH else Root(blake3, txHashes)
    ensures txHashes != [] ==> root == Node(blake3, txHashes, Depth(|txHashes|), 0)
  {
    if txHashes == [] {
      return ZERO_HASH;
    }
    var hashes := txHashes;
    while |hashes| > 1
      invariant hashes != [] && Root(blake3, hashes) == Root(blake3, txHashes)
      decreases |hashes|
    {
      hashes := BuildLevel(blake3, hashes);
    }
    RootIsTopNode(blake3, txHashes);
    return hashes[0];
  }

  // ------------------------------------------------- recursive reference definition

  /** The number of nodes `k` steps above `n` leaves. */
  function Width(n: nat, k: nat): (w: nat)
    ensures n > 0 ==> w > 0
  {
    if k == 0 then n else (Width(n, k - 1) + 1) / 2
  }

  /** Node `i` of level `k`, top down: the hash of its two children. A position past the end of a
      level denotes the level's last node, which is how an odd level is completed. */
  function Node(blake3: Hasher, leaves: seq<Hash>, k: nat, i: nat): Hash
    requires leaves != []
    decreases k
  {
    var last := Width(|leaves|, k) - 1;
    var j := if i <= last then i else last;
    if k == 0 then leaves[j]
    else Parent(blake3, Node(blake3, leaves, k - 1, 2 * j), Node(blake3, leaves, k - 1, 2 * j + 1))
  }

  lemma {:induction false} LevelAtSnoc(blake3: Hasher, hs: seq<Hash>, k: nat)
    ensures LevelAt(blake3, hs, k + 1) == Level(blake3, LevelAt(blake3, hs, k))
    decreases k
  {
    if k > 0 {
      LevelAtSnoc(blake3, Level(blake3, hs), k - 1);
    }
  }

  lemma {:induction false} LevelAtWidth(blake3: Hasher, hs: seq<Hash>, k: nat)
    ensures |LevelAt(blake3, hs, k)| == Width(|hs|, k)
  {
    if k > 0 {
      LevelAtWidth(blake3, hs, k - 1);
      LevelAtSnoc(blake3, hs, k - 1);
    }
  }

  lemma {:induction false} NodeOfChildren(blake3: Hasher, hs: seq<Hash>, k: nat, i: nat, lower: seq<Hash>)
    requires hs != [] && k > 0 && |lower| == Width(|hs|, k - 1) && 2 * i < |lower|
    requires Node(blake3, hs, k - 1, 2 * i) == lower[2 * i]
    requires Node(blake3, hs, k - 1, 2 * i + 1) == RightOf(lower, i)
    ensures Node(blake3, hs, k, i) == Parent(blake3, lower[2 * i], RightOf(lower, i))
  {}

  lemma {:induction false} NodePastEnd(blake3: Hasher, hs: seq<Hash>, k: nat, i: nat)
    requires hs != [] && i >= Width(|hs|, k)
    ensures Node(blake3, hs, k, i) == Node(blake3, hs, k, Width(|hs|, k) - 1)
  {}

  /** Every node the loop produces is the node the recursive definition places there. */
  lemma {:induction false} LevelAtNode(blake3: Hasher, hs: seq<Hash>, k: nat, i: nat)
    requires hs != [] && i < Width(|hs|, k)
    ensures |LevelAt(blake3, hs, k)| == Width(|hs|, k)
    ensures Node(blake3, hs, k, i) == LevelAt(blake3, hs, k)[i]
    decreases k
  {
    LevelAtWidth(blake3, hs, k);
    if k > 0 {
      var lower := LevelAt(blake3, hs, k - 1);
      LevelAtSnoc(blake3, hs, k - 1);
      LevelAtNode(blake3, hs, k - 1, 2 * i);
      if 2 * i + 1 < |lower| {
        LevelAtNode(blake3, hs, k - 1, 2 * i + 1);
      } else {
        NodePastEnd(blake3, hs, k - 1, 2 * i + 1);
      }
      NodeOfChildren(blake3, hs, k, i, lower);
      LevelIndex(blake3, lower, i);
    }
  }

  lemma {:induction false} RootIsLevelAtDepth(blake3: Hasher, hs: seq<Hash>)
    requires hs != []
    ensures LevelAt(blake3, hs, Depth(|hs|)) == [Root(blake3, hs)]
    decreases |hs|
  {
    if |hs| > 1 {
      var up := Level(blake3, hs);
      var d := Depth(|up|);
      RootIsLevelAtDepth(blake3, up);
      assert Depth(|hs|) == d + 1;
      assert LevelAt(blake3, hs, d + 1) == LevelAt(blake3, up, d);
    }
  }

  /** The level-by-level loop computes the top node of the recursive tree. */
  lemma {:induction false} RootIsTopNode(blake3: Hasher, hs: seq<Hash>)
    requires hs != []
    ensures Width(|hs|, Depth(|hs|)) == 1
    ensures Root(blake3, hs) == Node(blake3, hs, Depth(|hs|), 0)
  {
    RootIsLevelAtDepth(blake3, hs);
    LevelAtNode(blake3, hs, Depth(|hs|), 0);
  }

  // ---------------------------------------------------------------- root binding

  /** `(a, b)` is a Blake3 collision on 64-byte inputs. */
  predicate Collision(blake3: Hasher, a: Bytes, b: Bytes) {
    |a| == |b| == 64 && a != b && blake3(a) == blake3(b)
  }

  /** `a` is one of the 64-byte strings the root builder hashes for `hs`. */
  ghost predicate HashedFor(blake3: Hasher, hs: seq<Hash>, a: Bytes) {
    exists k: nat, i: nat :: HashedAt(blake3, hs, a, k, i)
  }

  ghost predicate HashedAt(blake3: Hasher, hs: seq<Hash>, a: Bytes, k: nat, i: nat) {
    var lv := LevelAt(blake3, hs, k);
    2 * i < |lv| && |lv| > 1 && a == Join(lv[2 * i], RightOf(lv, i))
  }

  lemma {:induction false} HashedForUp(blake3: Hasher, hs: seq<Hash>, a: Bytes)
    requires HashedFor(blake3, Level(blake3, hs), a)
    ensures HashedFor(blake3, hs, a)
  {
    var k: nat, i: nat :| HashedAt(blake3, Level(blake3, hs), a, k, i);
    assert HashedAt(blake3, hs, a, k + 1, i);
  }

  /** The root binds the transaction list: two different lists of the same length with the same
      root exhibit a Blake3 collision among the strings the builder hashed for them. */
  lemma {:induction false} RootBindsLeaves(blake3: Hasher, xs: seq<Hash>, ys: seq<Hash>)
    returns (a: Bytes, b: Bytes)
    requires |xs| == |ys| > 0 && xs != ys
    requires Root(blake3, xs) == Root(blake3, ys)
    ensures Collision(blake3, a, b)
    ensures HashedFor(blake3, xs, a) && HashedFor(blake3, ys, b)
    decreases |xs|
  {
    var ux, uy := Level(blake3, xs), Level(blake3, ys);
    if ux != uy {
      a, b := RootBindsLeaves(blake3, ux, uy);
      HashedForUp(blake3, xs, a);
      HashedForUp(blake3, ys, b);
    } else {
      var j :| 0 <= j < |xs| && xs[j] != ys[j];
      var i := j / 2;
      a, b := Join(xs[2 * i], RightOf(xs, i)), Join(ys[2 * i], RightOf(ys, i));
      LevelIndex(blake3, xs, i);
      LevelIndex(blake3, ys, i);
      if a == b {
        JoinInjective(xs[2 * i], RightOf(xs, i), ys[2 * i], RightOf(ys, i));
        assert false;
      }
      assert HashedAt(blake3, xs, a, 0, i) && HashedAt(blake3, ys, b, 0, i);
    }
  }

  lemma {:induction false} RootStep(blake3: Hasher, hs: seq<Hash>)
    requires |hs| > 1
    ensures Root(blake3, hs) == Root(blake3, LevelPrefix(blake3, hs, (|hs| + 1) / 2))
  {}

  lemma {:induction false} DuplicatedTailSameLevel(blake3: Hasher, hs: seq<Hash>, hs': seq<Hash>, m: nat)
    requires |hs| % 2 == 1 && hs' == hs + [hs[|hs| - 1]] && m <= (|hs| + 1) / 2
    ensures LevelPrefix(blake3, hs', m) == LevelPrefix(blake3, hs, m)
    decreases m
  {
    if m > 0 {
      DuplicatedTailSameLevel(blake3, hs, hs', m - 1);
    }
  }

  /** Equal lengths matter: repeating the last hash of an odd list never changes the root. */
  lemma {:induction false} DuplicatedTailSameRoot(blake3: Hasher, hs: seq<Hash>)
    requires |hs| > 1 && |hs| % 2 == 1
    ensures Root(blake3, hs + [hs[|hs| - 1]]) == Root(blake3, hs)
  {
    var hs' := hs + [hs[|hs| - 1]];
    var m := (|hs| + 1) / 2;
    assert (|hs'| + 1) / 2 == m;
    DuplicatedTailSameLevel(blake3, hs, hs', m);
    RootStep(blake3, hs);
    RootStep(blake3, hs');
  }

  // ---------------------------------------------------------------- proof check

  /** The running hash of the proof check, always the left operand. */
  function Fold(blake3: Hasher, start: Hash, proof: seq<Hash>): Hash
    decreases |proof|
  {
    if proof == [] then start else Fold(blake3, Parent(blake3, start, proof[0]), proof[1..])
  }

  method VerifyMerkleProof(blake3: Hasher, txHash: Hash, proof: seq<Hash>, expectedRoot: Hash)
    returns (r: Result<Hash, string>)
    ensures r.Ok? <==> Fold(blake3, txHash, proof) == expectedRoot
    ensures r.Ok? ==> r.value == expectedRoot
  {
    var current := txHash;
    for k := 0 to |proof|
      invariant Fold(blake3, current, proof[k..]) == Fold(blake3, txHash, proof)
    {
      current := Parent(blake3, current, proof[k]);
      assert proof[k..][1..] == proof[k + 1..];
    }
    if current == expectedRoot {
      r := Ok(current);
    } else {
      r := Err("Merkle proof does not match expected root");
    }
  }

  /** The siblings met on the way up from the first leaf. */
  function FirstPath(blake3: Hasher, hs: seq<Hash>): (path: seq<Hash>)
    requires hs != []
    ensures |path| == Depth(|hs|)
    decreases |hs|
  {
    if |hs| == 1 then [] else [hs[1]] + FirstPath(blake3, Level(blake3, hs))
  }

  lemma {:induction false} LevelAtNonEmpty(blake3: Hasher, hs: seq<Hash>, k: nat)
    requires hs != []
    ensures LevelAt(blake3, hs, k) != []
    decreases k
  {
    if k > 0 {
      LevelAtNonEmpty(blake3, Level(blake3, hs), k - 1);
    }
  }

  /** From the first node of any level, the rest of the first leaf's siblings verify. */
  lemma {:induction false} FirstPathVerifies(blake3: Hasher, hs: seq<Hash>, k: nat)
    requires hs != [] && k <= Depth(|hs|)
    ensures LevelAt(blake3, hs, k) != []
    ensures Fold(blake3, LevelAt(blake3, hs, k)[0], FirstPath(blake3, hs)[k..]) == Root(blake3, hs)
    decreases |hs|
  {
    LevelAtNonEmpty(blake3, hs, k);
    if |hs| > 1 {
      var up := Level(blake3, hs);
      var path := FirstPath(blake3, hs);
      LevelIndex(blake3, hs, 0);
      if k == 0 {
        FirstPathVerifies(blake3, up, 0);
        assert path[1..] == FirstPath(blake3, up) == FirstPath(blake3, up)[0..];
        assert path[0..] == path;
      } else {
        FirstPathVerifies(blake3, up, k - 1);
        assert path[k..] == FirstPath(blake3, up)[k - 1..];
      }
    }
  }

  lemma {:induction false} FoldSnoc(blake3: Hasher, start: Hash, proof: seq<Hash>)
    requires proof != []
    ensures Fold(blake3, start, proof)
         == Parent(blake3, Fold(blake3, start, proof[..|proof| - 1]), proof[|proof| - 1])
    decreases |proof|
  {
    if |proof| > 1 {
      var front := proof[..|proof| - 1];
      FoldSnoc(blake3, Parent(blake3, start, proof[0]), proof[1..]);
      assert proof[1..][..|proof| - 2] == front[1..];
    }
  }

  /** Two folds of the same length with the same result agree, or exhibit a collision. */
  lemma {:induction false} FoldBinds(blake3: Hasher, s: Hash, p: seq<Hash>, t: Hash, q: seq<Hash>)
    returns (a: Bytes, b: Bytes)
    requires |p| == |q| && Fold(blake3, s, p) == Fold(blake3, t, q)
    ensures (s == t && p == q) || Collision(blake3, a, b)
    decreases |p|
  {
    a, b := [], [];
    if p != [] {
      var n := |p| - 1;
      FoldSnoc(blake3, s, p);
      FoldSnoc(blake3, t, q);
      var u, v := Fold(blake3, s, p[..n]), Fold(blake3, t, q[..n]);
      a, b := Join(u, p[n]), Join(v, q[n]);
      if a == b {
        JoinInjective(u, p[n], v, q[n]);
        a, b := FoldBinds(blake3, s, p[..n], t, q[..n]);
        assert p == p[..n] + [p[n]] && q == q[..n] + [q[n]];
      }
    }
  }

  lemma {:induction false} FoldAppend(blake3: Hasher, start: Hash, p: seq<Hash>, q: seq<Hash>)
    ensures Fold(blake3, start, p + q) == Fold(blake3, Fold(blake3, start, p), q)
    decreases |p|
  {
    if p == [] {
      assert p + q == q;
    } else {
      FoldAppend(blake3, Parent(blake3, start, p[0]), p[1..], q);
      assert (p + q)[1..] == p[1..] + q;
    }
  }

  /** `start` and `proof` follow the first leaf's path: from the first node of the level that is as many
      below the root as the proof is long or, if the proof is longer than the tree is deep, by hashing up
      to the first transaction and from there. */
  predicate OnFirstPath(blake3: Hasher, hs: seq<Hash>, start: Hash, proof: seq<Hash>)
    requires hs != []
  {
    var depth := Depth(|hs|);
    if |proof| <= depth then
      && LevelAt(blake3, hs, depth - |proof|) != []
      && start == LevelAt(blake3, hs, depth - |proof|)[0]
      && proof == FirstPath(blake3, hs)[depth - |proof|..]
    else
      && Fold(blake3, start, proof[..|proof| - depth]) == hs[0]
      && proof[|proof| - depth..] == FirstPath(blake3, hs)
  }

  /** What a proof of any length can show: it is accepted when it follows the first leaf's path, and any
      other accepted proof exhibits a Blake3 collision. At full depth it starts at the first transaction. */
  lemma {:induction false} AcceptedProofs(blake3: Hasher, hs: seq<Hash>, start: Hash, proof: seq<Hash>)
    returns (a: Bytes, b: Bytes)
    requires hs != []
    ensures OnFirstPath(blake3, hs, start, proof) ==> Fold(blake3, start, proof) == Root(blake3, hs)
    ensures Fold(blake3, start, proof) == Root(blake3, hs) ==>
              OnFirstPath(blake3, hs, start, proof) || Collision(blake3, a, b)
  {
    if |proof| <= Depth(|hs|) {
      a, b := ShortProofs(blake3, hs, start, proof);
    } else {
      a, b := LongProofs(blake3, hs, start, proof);
    }
  }

  lemma {:induction false} LongProofs(blake3: Hasher, hs: seq<Hash>, start: Hash, proof: seq<Hash>)
    returns (a: Bytes, b: Bytes)
    requires hs != [] && |proof| > Depth(|hs|)
    ensures var n := |proof| - Depth(|hs|);
            var reached := Fold(blake3, start, proof[..n]) == hs[0] && proof[n..] == FirstPath(blake3, hs);
            && (reached ==> Fold(blake3, start, proof) == Root(blake3, hs))
            && (Fold(blake3, start, proof) == Root(blake3, hs) ==> reached || Collision(blake3, a, b))
  {
    var n := |proof| - Depth(|hs|);
    FoldAppend(blake3, start, proof[..n], proof[n..]);
    assert proof[..n] + proof[n..] == proof;
    a, b := ShortProofs(blake3, hs, Fold(blake3, start, proof[..n]), proof[n..]);
    assert FirstPath(blake3, hs)[0..] == FirstPath(blake3, hs);
  }

  lemma {:induction false} ShortProofs(blake3: Hasher, hs: seq<Hash>, start: Hash, proof: seq<Hash>)
    returns (a: Bytes, b: Bytes)
    requires hs != [] && |proof| <= Depth(|hs|)
    ensures var k := Depth(|hs|) - |proof|;
            var first := LevelAt(blake3, hs, k);
            && first != []
            && (start == first[0] && proof == FirstPath(blake3, hs)[k..]
                ==> Fold(blake3, start, proof) == Root(blake3, hs))
            && (Fold(blake3, start, proof) == Root(blake3, hs)
                ==> (start == first[0] && proof == FirstPath(blake3, hs)[k..]) || Collision(blake3, a, b))
  {
    var k := Depth(|hs|) - |proof|;
    FirstPathVerifies(blake3, hs, k);
    a, b := [], [];
    if Fold(blake3, start, proof) == Root(blake3, hs) {
      a, b := FoldBinds(blake3, start, proof, LevelAt(blake3, hs, k)[0], FirstPath(blake3, hs)[k..]);
    }
  }

  /** A proof at least as long as the tree is deep is never accepted, short of a Blake3 collision, unless
      it hashes up to the first transaction: payments the tree commits to elsewhere are not confirmed. At
      full depth there is nothing left to hash, so the transaction proved is the first one itself. */
  lemma {:induction false} OnlyFirstTransactionProvable(blake3: Hasher, hs: seq<Hash>, tx: Hash, proof: seq<Hash>)
    returns (a: Bytes, b: Bytes)
    requires hs != [] && |proof| >= Depth(|hs|)
    requires Fold(blake3, tx, proof) == Root(blake3, hs)
    ensures Fold(blake3, tx, proof[..|proof| - Depth(|hs|)]) == hs[0] || Collision(blake3, a, b)
    ensures |proof| == Depth(|hs|) && tx != hs[0] ==> Collision(blake3, a, b)
  {
    a, b := AcceptedProofs(blake3, hs, tx, proof);
  }

  /** The honest proof for the second of two transactions is accepted exactly when Blake3 maps the
      two orders of the pair to one digest. */
  lemma {:induction false} SecondOfTwo(blake3: Hasher, x: Hash, y: Hash)
    ensures Fold(blake3, y, [x]) == Root(blake3, [x, y]) <==> blake3(Join(y, x)) == blake3(Join(x, y))
  {
    LevelIndex(blake3, [x, y], 0);
    assert Root(blake3, [x, y]) == Level(blake3, [x, y])[0];
    assert Fold(blake3, y, [x]) == Fold(blake3, Parent(blake3, y, x), []);
  }

  /** The smallest trees written out: siblings are hashed left before right, and the last hash of an odd level
      with itself. */
  lemma {:induction false} SmallTrees(blake3: Hasher, x: Hash, y: Hash, z: Hash)
    ensures Root(blake3, [x]) == x
    ensures Root(blake3, [x, y]) == blake3(x + y)
    ensures Root(blake3, [x, y, z]) == blake3(blake3(x + y) + blake3(z + z))
    ensures Fold(blake3, x, []) == x && Fold(blake3, x, [y]) == blake3(x + y)
  {
    LevelIndex(blake3, [x, y], 0);
    LevelIndex(blake3, [x, y, z], 0);
    LevelIndex(blake3, [x, y, z], 1);
    var up := Level(blake3, [x, y, z]);
    assert up == [blake3(x + y), blake3(z + z)];
    LevelIndex(blake3, up, 0);
    assert Level(blake3, [x, y]) == [blake3(x + y)];
    assert Level(blake3, up) == [blake3(blake3(x + y) + blake3(z + z))];
    assert Root(blake3, [x, y, z]) == Root(blake3, up) == Root(blake3, Level(blake3, up));
    assert [y][1..] == [];
  }
}
