/** When applying a block again after a commit that landed in part restores the tree of unspent outputs. */
module UtxoReplay {
  import opened Common
  import opened UtxoStore
  import opened UtxoTree

  // ------------------------------------------------------------- what a block's operations write

  datatype Write = Write(i: nat, h: Hash)

  /** The bookkeeping of a block in progress, with the leaves it sets in order. */
  datatype Book = Book(index: map<OutPoint, nat>, next: nat, indexed: map<OutPoint, nat>, writes: seq<Write>)

  /** One operation where the committed index is `known`. */
  function Note(known: map<OutPoint, nat>, b: Book, t: TreeOp): Option<Book> {
    match t
    case Put(op, leaf) =>
      if op in b.indexed || op in known then None
      else Some(Book(b.index[op := b.next], b.next + 1, b.indexed[op := b.next], b.writes + [Write(b.next, leaf)]))
    case Delete(op) =>
      if op in b.indexed then Some(Deleted(b, op, b.indexed[op]))
      else if op in known then Some(Deleted(b, op, known[op]))
      else Some(b)
  }

  function Deleted(b: Book, op: OutPoint, i: nat): Book {
    Book(b.index - {op}, b.next, b.indexed - {op}, b.writes + [Write(i, ZERO_HASH)])
  }

  function Notes(known: map<OutPoint, nat>, next: nat, ts: seq<TreeOp>): Option<Book> {
    if ts == [] then Some(Book(known, next, map[], []))
    else match Notes(known, next, ts[..|ts| - 1])
      case None => None
      case Some(b) => Note(known, b, Last(ts))
  }

  function WriteLeaves(leaves: Leaves, ws: seq<Write>): Leaves {
    if ws == [] then leaves else WriteLeaves(leaves, ws[..|ws| - 1])[Last(ws).i := Last(ws).h]
  }

  function WriteNodes(hash: PairHash, depth: nat, nodes: Nodes, ws: seq<Write>): Nodes {
    if ws == [] then nodes
    else PathUpdated(hash, depth, WriteNodes(hash, depth, nodes, ws[..|ws| - 1]), Last(ws).i, Last(ws).h)
  }

  /** The block in progress that a book describes. */
  function WorkOf(hash: PairHash, depth: nat, base: Layer, b: Book): Work {
    Work(Layer(WriteNodes(hash, depth, base.nodes, b.writes), WriteLeaves(base.leaves, b.writes), b.index, b.next),
         b.indexed)
  }

  lemma {:induction false} NoteIsApply(hash: PairHash, depth: nat, base: Layer, b: Book, t: TreeOp)
    ensures Apply(hash, depth, base, WorkOf(hash, depth, base, b), t).Some? <==> Note(base.index, b, t).Some?
    ensures Note(base.index, b, t).Some? ==>
              Apply(hash, depth, base, WorkOf(hash, depth, base, b), t)
              == Some(WorkOf(hash, depth, base, Note(base.index, b, t).value))
  {
    match t
    case Put(op, leaf) =>
      if op !in b.indexed && op !in base.index {
        WriteSnoc(hash, depth, base, b.writes, b.next, leaf);
      }
    case Delete(op) =>
      if op in b.indexed {
        DeletedIsApply(hash, depth, base, b, op, b.indexed[op]);
      } else if op in base.index {
        DeletedIsApply(hash, depth, base, b, op, base.index[op]);
      }
  }

  lemma {:induction false} DeletedIsApply(hash: PairHash, depth: nat, base: Layer, b: Book, op: OutPoint, i: nat)
    requires PositionOf(base, WorkOf(hash, depth, base, b), op) == Some(i)
    ensures Apply(hash, depth, base, WorkOf(hash, depth, base, b), Delete(op))
         == Some(WorkOf(hash, depth, base, Deleted(b, op, i)))
  {
    WriteSnoc(hash, depth, base, b.writes, i, ZERO_HASH);
  }

  lemma {:induction false} WriteSnoc(hash: PairHash, depth: nat, base: Layer, ws: seq<Write>, i: nat, h: Hash)
    ensures WriteNodes(hash, depth, base.nodes, ws + [Write(i, h)])
         == PathUpdated(hash, depth, WriteNodes(hash, depth, base.nodes, ws), i, h)
    ensures WriteLeaves(base.leaves, ws + [Write(i, h)]) == WriteLeaves(base.leaves, ws)[i := h]
  {
    assert (ws + [Write(i, h)])[..|ws|] == ws;
  }

  /** The bookkeeping never reads leaves or nodes, so it can be followed on its own. */
  lemma {:induction false} ReplayNotes(hash: PairHash, depth: nat, base: Layer, ts: seq<TreeOp>)
    ensures Replay(hash, depth, base, ts).Some? <==> Notes(base.index, base.next, ts).Some?
    ensures Notes(base.index, base.next, ts).Some? ==>
              Replay(hash, depth, base, ts) == Some(WorkOf(hash, depth, base, Notes(base.index, base.next, ts).value))
    decreases |ts|
  {
    if ts != [] {
      var front := ts[..|ts| - 1];
      ReplayNotes(hash, depth, base, front);
      if Notes(base.index, base.next, front).Some? {
        NoteIsApply(hash, depth, base, Notes(base.index, base.next, front).value, Last(ts));
      }
    }
  }

  // ------------------------------------------------------------- leaves

  function LastWrite(ws: seq<Write>, i: nat): Option<Hash> {
    if ws == [] then None else if Last(ws).i == i then Some(Last(ws).h) else LastWrite(ws[..|ws| - 1], i)
  }

  lemma {:induction false} WriteLeavesAt(leaves: Leaves, ws: seq<Write>, i: nat)
    ensures i in WriteLeaves(leaves, ws) <==> LastWrite(ws, i).Some? || i in leaves
    ensures i in WriteLeaves(leaves, ws) ==>
              WriteLeaves(leaves, ws)[i] == if LastWrite(ws, i).Some? then LastWrite(ws, i).value else leaves[i]
    decreases |ws|
  {
    if ws != [] {
      WriteLeavesAt(leaves, ws[..|ws| - 1], i);
    }
  }

  /** The writes at positions from `n` on. */
  function From(ws: seq<Write>, n: nat): seq<Write> {
    if ws == [] then []
    else if Last(ws).i >= n then From(ws[..|ws| - 1], n) + [Last(ws)]
    else From(ws[..|ws| - 1], n)
  }

  lemma {:induction false} LastWriteFrom(ws: seq<Write>, n: nat, i: nat)
    ensures LastWrite(From(ws, n), i) == if i >= n then LastWrite(ws, i) else None
    decreases |ws|
  {
    if ws != [] {
      var front := From(ws[..|ws| - 1], n);
      LastWriteFrom(ws[..|ws| - 1], n, i);
      assert (front + [Last(ws)])[..|front|] == front;
    }
  }

  /** Writing some of the positions again changes nothing. */
  lemma {:induction false} WriteTwice(leaves: Leaves, ws: seq<Write>, n: nat)
    ensures WriteLeaves(WriteLeaves(leaves, ws), From(ws, n)) == WriteLeaves(leaves, ws)
  {
    var once := WriteLeaves(leaves, ws);
    var twice := WriteLeaves(once, From(ws, n));
    forall i: nat ensures (i in twice <==> i in once) && (i in once ==> twice[i] == once[i]) {
      WriteLeavesAt(leaves, ws, i);
      WriteLeavesAt(once, From(ws, n), i);
      LastWriteFrom(ws, n, i);
    }
  }

  lemma {:induction false} FromAll(ws: seq<Write>)
    ensures From(ws, 0) == ws
    decreases |ws|
  {
    if ws != [] {
      FromAll(ws[..|ws| - 1]);
    }
  }

  // ------------------------------------------------------------- nodes

  /** Every write is within capacity. */
  predicate Within(ws: seq<Write>, capacity: nat) {
    forall k :: 0 <= k < |ws| ==> ws[k].i < capacity
  }

  lemma {:induction false} WritesKeepTree(hash: PairHash, depth: nat, nodes: Nodes, leaves: Leaves, ws: seq<Write>)
    requires TreeOk(hash, depth, nodes, leaves) && Within(ws, Pow2(depth))
    ensures TreeOk(hash, depth, WriteNodes(hash, depth, nodes, ws), WriteLeaves(leaves, ws))
    decreases |ws|
  {
    if ws != [] {
      var front := ws[..|ws| - 1];
      WritesKeepTree(hash, depth, nodes, leaves, front);
      var w := Last(ws);
      PathKeepsTree(hash, depth, WriteNodes(hash, depth, nodes, front), WriteLeaves(leaves, front), w.i, w.h);
    }
  }

  /** Absent leaves are zero, so these are the same leaves. */
  ghost predicate SameLeaves(a: Leaves, b: Leaves) {
    forall i: nat :: Leaf(a, i) == Leaf(b, i)
  }

  lemma {:induction false} SubtreeOfSame(hash: PairHash, a: Leaves, b: Leaves, level: nat, i: nat)
    requires SameLeaves(a, b)
    ensures Subtree(hash, a, level, i) == Subtree(hash, b, level, i)
    decreases level
  {
    if level > 0 {
      SubtreeOfSame(hash, a, b, level - 1, 2 * i);
      SubtreeOfSame(hash, a, b, level - 1, 2 * i + 1);
    }
  }

  /** Nodes that are right for some leaves are right for exactly the same leaves. */
  lemma {:induction false} RightForSame(hash: PairHash, depth: nat, nodes: Nodes, a: Leaves, b: Leaves)
    requires TreeOk(hash, depth, nodes, a)
    ensures TreeOk(hash, depth, nodes, b) <==> SameLeaves(a, b)
  {
    if SameLeaves(a, b) {
      forall l: nat | l <= depth ensures LevelOk(hash, nodes, b, l) {
        assert LevelOk(hash, nodes, a, l);
        forall i: nat ensures NodeAt(hash, nodes, l, i) == Subtree(hash, b, l, i) {
          SubtreeOfSame(hash, a, b, l, i);
        }
      }
    }
    if TreeOk(hash, depth, nodes, b) {
      assert LevelOk(hash, nodes, a, 0) && LevelOk(hash, nodes, b, 0);
      forall i: nat ensures Leaf(a, i) == Leaf(b, i) {
        assert NodeAt(hash, nodes, 0, i) == Subtree(hash, a, 0, i) == Subtree(hash, b, 0, i);
      }
    }
  }

  // ------------------------------------------------------------- what the first run books

  predicate Puts(ts: seq<TreeOp>, op: OutPoint) {
    ts != [] && ((Last(ts).Put? && Last(ts).op == op) || Puts(ts[..|ts| - 1], op))
  }

  predicate Deletes(ts: seq<TreeOp>, op: OutPoint) {
    ts != [] && ((Last(ts).Delete? && Last(ts).op == op) || Deletes(ts[..|ts| - 1], op))
  }

  function CountPuts(ts: seq<TreeOp>): nat {
    if ts == [] then 0 else CountPuts(ts[..|ts| - 1]) + if Last(ts).Put? then 1 else 0
  }

  /** Positions in the committed index have been handed out. */
  predicate Below(known: map<OutPoint, nat>, next: nat) {
    forall op :: op in known ==> known[op] < next
  }

  /** The outputs put by the block are new, at new positions, and indexed; nothing else has been added to the
      index, and what was deleted from it is gone. */
  predicate Booked(known: map<OutPoint, nat>, next: nat, ts: seq<TreeOp>, b: Book) {
    && b.next == next + CountPuts(ts)
    && (forall op :: op in b.indexed ==>
          op !in known && Puts(ts, op) && op in b.index && next <= b.indexed[op] < b.next)
    && (forall op :: op in b.index && op !in b.indexed ==> op in known && !Deletes(ts, op))
  }

  lemma {:induction false} NoteBooked(known: map<OutPoint, nat>, next: nat, ts: seq<TreeOp>, b: Book)
    requires ts != [] && Booked(known, next, ts[..|ts| - 1], b) && Note(known, b, Last(ts)).Some?
    ensures Booked(known, next, ts, Note(known, b, Last(ts)).value)
  {}

  lemma {:induction false} NotesBooked(known: map<OutPoint, nat>, next: nat, ts: seq<TreeOp>)
    requires Notes(known, next, ts).Some?
    ensures Booked(known, next, ts, Notes(known, next, ts).value)
    decreases |ts|
  {
    if ts != [] {
      NotesBooked(known, next, ts[..|ts| - 1]);
      NoteBooked(known, next, ts, Notes(known, next, ts[..|ts| - 1]).value);
    }
  }

  lemma {:induction false} NotesWithin(known: map<OutPoint, nat>, next: nat, ts: seq<TreeOp>)
    requires Below(known, next) && Notes(known, next, ts).Some?
    ensures Within(Notes(known, next, ts).value.writes, Notes(known, next, ts).value.next)
    decreases |ts|
  {
    if ts != [] {
      var front := ts[..|ts| - 1];
      NotesWithin(known, next, front);
      NotesBooked(known, next, front);
    }
  }

  /** A committed output at position `i` is deleted. */
  predicate DeletedAt(known: map<OutPoint, nat>, ts: seq<TreeOp>, i: nat) {
    exists op :: op in known && known[op] == i && Deletes(ts, op)
  }

  /** Old positions are written exactly when the output there is deleted, and then with zero. */
  lemma {:induction false} OldWrites(known: map<OutPoint, nat>, next: nat, ts: seq<TreeOp>, i: nat)
    requires Below(known, next) && Notes(known, next, ts).Some? && i < next
    ensures LastWrite(Notes(known, next, ts).value.writes, i)
         == if DeletedAt(known, ts, i) then Some(ZERO_HASH) else None
    decreases |ts|
  {
    if ts != [] {
      var front, t := ts[..|ts| - 1], Last(ts);
      var b := Notes(known, next, front).value;
      OldWrites(known, next, front, i);
      NotesBooked(known, next, front);
      LastWriteSnoc(b.writes, i);
      if DeletedAt(known, front, i) {
        var op :| op in known && known[op] == i && Deletes(front, op);
        assert Deletes(ts, op);
      }
      if DeletedAt(known, ts, i) && !DeletedAt(known, front, i) {
        var op :| op in known && known[op] == i && Deletes(ts, op);
        assert !Deletes(front, op) && t == Delete(op);
      }
      if t.Delete? && t.op in known && known[t.op] == i {
        assert Deletes(ts, t.op);
      }
    }
  }

  lemma {:induction false} LastWriteSnoc(ws: seq<Write>, i: nat)
    ensures forall w: Write :: LastWrite(ws + [w], i) == if w.i == i then Some(w.h) else LastWrite(ws, i)
  {
    forall w: Write ensures LastWrite(ws + [w], i) == if w.i == i then Some(w.h) else LastWrite(ws, i) {
      assert (ws + [w])[..|ws|] == ws;
    }
  }

  // ------------------------------------------------------------- what the second run books

  /** No operation is on an output of `final`. */
  predicate Avoids(ts: seq<TreeOp>, final: map<OutPoint, nat>) {
    forall k :: 0 <= k < |ts| ==> ts[k].op !in final
  }

  /** Over an index that none of the operations touches, a block books what it did over the committed one,
      except that it does not find the committed outputs it deletes. */
  lemma {:induction false} SecondNotes(known: map<OutPoint, nat>, next: nat, ts: seq<TreeOp>, final: map<OutPoint, nat>)
    requires Below(known, next) && Notes(known, next, ts).Some? && Avoids(ts, final)
    ensures var a := Notes(known, next, ts).value;
            Notes(final, next, ts) == Some(Second(a, next, final))
    decreases |ts|
  {
    if ts == [] {
      assert final + map[] == final;
    } else {
      var front, t := ts[..|ts| - 1], Last(ts);
      SecondNotes(known, next, front, final);
      NotesBooked(known, next, front);
      SecondNote(known, next, Notes(known, next, front).value, t, final);
    }
  }

  /** How the second run's book relates to the first's. */
  function Second(a: Book, next: nat, final: map<OutPoint, nat>): Book {
    Book(final + a.indexed, a.next, a.indexed, From(a.writes, next))
  }

  lemma {:induction false} SecondNote(known: map<OutPoint, nat>, next: nat, a: Book, t: TreeOp,
                                      final: map<OutPoint, nat>)
    requires Below(known, next) && Note(known, a, t).Some? && t.op !in final && a.next >= next
    requires forall op :: op in a.indexed ==> a.indexed[op] >= next
    ensures Note(final, Second(a, next, final), t) == Some(Second(Note(known, a, t).value, next, final))
  {
    match t
    case Put(op, leaf) => SecondPut(known, next, a, op, leaf, final);
    case Delete(op) =>
      if op in a.indexed {
        SecondDelete(a, op, a.indexed[op], next, final);
      } else if op in known {
        FromSnoc(a.writes, Write(known[op], ZERO_HASH), next);
        assert a.indexed - {op} == a.indexed;
      }
  }

  lemma {:induction false} SecondPut(known: map<OutPoint, nat>, next: nat, a: Book, op: OutPoint, leaf: Hash,
                                     final: map<OutPoint, nat>)
    requires Note(known, a, Put(op, leaf)).Some? && op !in final && a.next >= next
    ensures Note(final, Second(a, next, final), Put(op, leaf))
         == Some(Second(Note(known, a, Put(op, leaf)).value, next, final))
  {
    FromSnoc(a.writes, Write(a.next, leaf), next);
    OverrideOne(final, a.indexed, op, a.next);
  }

  lemma {:induction false} OverrideOne(m: map<OutPoint, nat>, n: map<OutPoint, nat>, op: OutPoint, i: nat)
    ensures (m + n)[op := i] == m + n[op := i]
  {}

  lemma {:induction false} SecondDelete(a: Book, op: OutPoint, i: nat, next: nat, final: map<OutPoint, nat>)
    requires i >= next && op !in final
    ensures Deleted(Second(a, next, final), op, i) == Second(Deleted(a, op, i), next, final)
  {
    FromSnoc(a.writes, Write(i, ZERO_HASH), next);
    assert (final + a.indexed) - {op} == final + (a.indexed - {op});
  }

  lemma {:induction false} FromSnoc(ws: seq<Write>, w: Write, n: nat)
    ensures From(ws + [w], n) == if w.i >= n then From(ws, n) + [w] else From(ws, n)
  {
    assert (ws + [w])[..|ws|] == ws;
  }

  /** A put of an output that the index has is refused. */
  lemma {:induction false} PutRefused(known: map<OutPoint, nat>, next: nat, ts: seq<TreeOp>, op: OutPoint)
    requires Puts(ts, op) && op in known
    ensures Notes(known, next, ts) == None
    decreases |ts|
  {
    if Puts(ts[..|ts| - 1], op) {
      PutRefused(known, next, ts[..|ts| - 1], op);
    }
  }

  lemma {:induction false} NoPuts(ts: seq<TreeOp>, op: OutPoint)
    requires CountPuts(ts) == 0
    ensures !Puts(ts, op)
    decreases |ts|
  {
    if ts != [] {
      NoPuts(ts[..|ts| - 1], op);
    }
  }

  lemma {:induction false} NoPutsLeft(ts: seq<TreeOp>, index: map<OutPoint, nat>)
    requires CountPuts(ts) == 0
    ensures NonePut(ts, index)
  {
    forall op ensures !Puts(ts, op) {
      NoPuts(ts, op);
    }
  }

  lemma {:induction false} OpIsPutOrDelete(ts: seq<TreeOp>, k: nat)
    requires k < |ts|
    ensures if ts[k].Put? then Puts(ts, ts[k].op) else Deletes(ts, ts[k].op)
    decreases |ts|
  {
    if k < |ts| - 1 {
      OpIsPutOrDelete(ts[..|ts| - 1], k);
    }
  }

  /** If no output put by the block is left in its index, none of its operations is on an output there. */
  lemma {:induction false} GoneIsAvoided(known: map<OutPoint, nat>, next: nat, ts: seq<TreeOp>)
    requires Notes(known, next, ts).Some? && NonePut(ts, Notes(known, next, ts).value.index)
    ensures Avoids(ts, Notes(known, next, ts).value.index)
    ensures Notes(known, next, ts).value.indexed == map[]
  {
    var a := Notes(known, next, ts).value;
    NotesBooked(known, next, ts);
    assert forall op :: op !in a.indexed;
    forall k | 0 <= k < |ts| ensures ts[k].op !in a.index {
      OpIsPutOrDelete(ts, k);
    }
  }

  // ------------------------------------------------------------- the theorem

  /** The block puts no output that is in `index`. */
  ghost predicate NonePut(ts: seq<TreeOp>, index: map<OutPoint, nat>) {
    forall op :: Puts(ts, op) ==> op !in index
  }

  /** Every committed output that the block deletes had a zero leaf all along. */
  ghost predicate OnlyZeroDeleted(base: Layer, ts: seq<TreeOp>) {
    forall op :: op in base.index && Deletes(ts, op) ==> Leaf(base.leaves, base.index[op]) == ZERO_HASH
  }

  /** The same leaves, index and next position, and the same hash wherever a node is read. */
  ghost predicate Alike(hash: PairHash, depth: nat, a: Layer, b: Layer) {
    && a.leaves == b.leaves && a.index == b.index && a.next == b.next
    && forall level: nat, i: nat ::
         level <= depth ==> NodeAt(hash, a.nodes, level, i) == NodeAt(hash, b.nodes, level, i)
  }

  /** Applying the block to `base` is not refused and gives `staged`. */
  ghost predicate Restores(hash: PairHash, depth: nat, base: Layer, ts: seq<TreeOp>, staged: Layer) {
    var r := Replay(hash, depth, base, ts);
    r.Some? && Alike(hash, depth, r.value.layer, staged)
  }

  lemma {:induction false} AlikeIsRight(hash: PairHash, depth: nat, a: Layer, b: Layer)
    requires TreeOk(hash, depth, b.nodes, b.leaves)
    ensures Alike(hash, depth, a, b) <==>
              a.leaves == b.leaves && a.index == b.index && a.next == b.next && TreeOk(hash, depth, a.nodes, b.leaves)
  {
    forall l: nat | l <= depth ensures LevelOk(hash, b.nodes, b.leaves, l) {
    }
    if TreeOk(hash, depth, a.nodes, b.leaves) {
      forall level: nat, i: nat | level <= depth
        ensures NodeAt(hash, a.nodes, level, i) == NodeAt(hash, b.nodes, level, i)
      {
        assert LevelOk(hash, a.nodes, b.leaves, level) && LevelOk(hash, b.nodes, b.leaves, level);
      }
    }
    if Alike(hash, depth, a, b) {
      forall l: nat | l <= depth ensures LevelOk(hash, a.nodes, b.leaves, l) {
        forall i: nat ensures NodeAt(hash, a.nodes, l, i) == Subtree(hash, b.leaves, l, i) {
          assert LevelOk(hash, b.nodes, b.leaves, l);
        }
      }
    }
  }

  /** Before the index lands the second run books the same as the first. */
  lemma {:induction false} EarlyFailure(hash: PairHash, depth: nat, base: Layer, ts: seq<TreeOp>, landed: nat)
    requires Replay(hash, depth, base, ts).Some? && landed < 2
    ensures var staged := Replay(hash, depth, base, ts).value.layer;
            var again := Replay(hash, depth, Landed(base, staged, landed), ts);
            again.Some? && again.value.layer == staged
  {
    ReplayNotes(hash, depth, base, ts);
    var a := Notes(base.index, base.next, ts).value;
    var left := Landed(base, WorkOf(hash, depth, base, a).layer, landed);
    ReplayNotes(hash, depth, left, ts);
    FromAll(a.writes);
    WriteTwice(base.leaves, a.writes, 0);
  }

  /** The leaves that the committed nodes are right for once the new positions are written, against the staged
      leaves. */
  lemma {:induction false} StaleLeaves(base: Layer, ts: seq<TreeOp>)
    requires Below(base.index, base.next) && Notes(base.index, base.next, ts).Some?
    ensures var ws := Notes(base.index, base.next, ts).value.writes;
            SameLeaves(WriteLeaves(base.leaves, From(ws, base.next)), WriteLeaves(base.leaves, ws))
            <==> OnlyZeroDeleted(base, ts)
  {
    var ws := Notes(base.index, base.next, ts).value.writes;
    var stale, right := WriteLeaves(base.leaves, From(ws, base.next)), WriteLeaves(base.leaves, ws);
    forall i: nat
      ensures Leaf(stale, i) == Leaf(right, i) <==>
                (i < base.next && DeletedAt(base.index, ts, i) ==> Leaf(base.leaves, i) == ZERO_HASH)
    {
      WriteLeavesAt(base.leaves, ws, i);
      WriteLeavesAt(base.leaves, From(ws, base.next), i);
      LastWriteFrom(ws, base.next, i);
      if i < base.next {
        OldWrites(base.index, base.next, ts, i);
      }
    }
    if SameLeaves(stale, right) {
      forall op | op in base.index && Deletes(ts, op) ensures Leaf(base.leaves, base.index[op]) == ZERO_HASH {
        var i := base.index[op];
        assert DeletedAt(base.index, ts, i) && Leaf(stale, i) == Leaf(right, i);
      }
    }
  }

  /** With the index but not the nodes landed, and none of the block's puts left in it. */
  lemma {:induction false} MiddleFailure(hash: PairHash, depth: nat, base: Layer, ts: seq<TreeOp>, landed: nat)
    requires LayerOk(hash, depth, base) && 2 <= landed <= 3 && Replay(hash, depth, base, ts).Some?
    requires Replay(hash, depth, base, ts).value.layer.next <= Pow2(depth)
    requires NonePut(ts, Replay(hash, depth, base, ts).value.layer.index) && (landed == 3 ==> CountPuts(ts) == 0)
    ensures var staged := Replay(hash, depth, base, ts).value.layer;
            Restores(hash, depth, Landed(base, staged, landed), ts, staged) <==> OnlyZeroDeleted(base, ts)
  {
    ReplayNotes(hash, depth, base, ts);
    var a := Notes(base.index, base.next, ts).value;
    var staged := WorkOf(hash, depth, base, a).layer;
    var left := Landed(base, staged, landed);
    NotesBooked(base.index, base.next, ts);
    NotesWithin(base.index, base.next, ts);
    GoneIsAvoided(base.index, base.next, ts);
    SecondNotes(base.index, base.next, ts, a.index);
    assert a.index + map[] == a.index;
    ReplayNotes(hash, depth, left, ts);
    var ws := From(a.writes, base.next);
    var again := Replay(hash, depth, left, ts).value.layer;
    WriteTwice(base.leaves, a.writes, base.next);
    assert again == Layer(WriteNodes(hash, depth, base.nodes, ws), staged.leaves, staged.index, staged.next);
    FromWithin(a.writes, base.next, Pow2(depth));
    WritesKeepTree(hash, depth, base.nodes, base.leaves, a.writes);
    WritesKeepTree(hash, depth, base.nodes, base.leaves, ws);
    AlikeIsRight(hash, depth, again, staged);
    RightForSame(hash, depth, again.nodes, WriteLeaves(base.leaves, ws), staged.leaves);
    StaleLeaves(base, ts);
  }

  lemma {:induction false} FromWithin(ws: seq<Write>, n: nat, capacity: nat)
    requires Within(ws, capacity)
    ensures Within(From(ws, n), capacity)
    decreases |ws|
  {
    if ws != [] {
      FromWithin(ws[..|ws| - 1], n, capacity);
    }
  }

  /** Once the next position has landed, any put moves it on or is refused. */
  lemma {:induction false} PutsMoveOn(hash: PairHash, depth: nat, base: Layer, ts: seq<TreeOp>, landed: nat)
    requires Replay(hash, depth, base, ts).Some? && landed >= 3 && CountPuts(ts) > 0
    ensures var staged := Replay(hash, depth, base, ts).value.layer;
            !Restores(hash, depth, Landed(base, staged, landed), ts, staged)
  {
    var staged := Replay(hash, depth, base, ts).value.layer;
    var left := Landed(base, staged, landed);
    ReplayNotes(hash, depth, left, ts);
    if Notes(left.index, left.next, ts).Some? {
      NotesBooked(left.index, left.next, ts);
    }
  }

  /** Without puts, applying the block to the layer it left changes nothing. */
  lemma {:induction false} LateFailure(hash: PairHash, depth: nat, base: Layer, ts: seq<TreeOp>)
    requires Replay(hash, depth, base, ts).Some? && CountPuts(ts) == 0
    ensures var staged := Replay(hash, depth, base, ts).value.layer;
            Replay(hash, depth, staged, ts) == Some(Begun(staged))
  {
    ReplayNotes(hash, depth, base, ts);
    var a := Notes(base.index, base.next, ts).value;
    var staged := WorkOf(hash, depth, base, a).layer;
    NoPutsLeft(ts, a.index);
    GoneIsAvoided(base.index, base.next, ts);
    OnlyDeletes(staged.index, staged.next, ts);
    ReplayNotes(hash, depth, staged, ts);
  }

  lemma {:induction false} OnlyDeletes(known: map<OutPoint, nat>, next: nat, ts: seq<TreeOp>)
    requires CountPuts(ts) == 0 && Avoids(ts, known)
    ensures Notes(known, next, ts) == Some(Book(known, next, map[], []))
    decreases |ts|
  {
    if ts != [] {
      assert ts[|ts| - 1] == Last(ts);
      OnlyDeletes(known, next, ts[..|ts| - 1]);
    }
  }

  /** Applying a block again after `landed` batches of its commit reached the database restores what the
      commit would have left exactly when the index had not landed; or nothing the block put is left in the
      index (and once the next position has landed, it put nothing at all) and either the nodes had landed
      too or no committed output was deleted, short of one whose leaf was zero anyway. */
  lemma {:induction false} ReplayRestores(hash: PairHash, depth: nat, base: Layer, ts: seq<TreeOp>, landed: nat)
    requires LayerOk(hash, depth, base) && Replay(hash, depth, base, ts).Some?
    requires Replay(hash, depth, base, ts).value.layer.next <= Pow2(depth)
    ensures var staged := Replay(hash, depth, base, ts).value.layer;
            Restores(hash, depth, Landed(base, staged, landed), ts, staged) <==>
              || landed < 2
              || (&& (if landed == 2 then NonePut(ts, staged.index) else CountPuts(ts) == 0)
                  && (landed >= 4 || OnlyZeroDeleted(base, ts)))
  {
    var staged := Replay(hash, depth, base, ts).value.layer;
    var left := Landed(base, staged, landed);
    if landed < 2 {
      EarlyFailure(hash, depth, base, ts, landed);
    } else if landed >= 3 && CountPuts(ts) > 0 {
      PutsMoveOn(hash, depth, base, ts, landed);
    } else if landed >= 4 {
      LateFailure(hash, depth, base, ts);
      assert left == staged;
    } else if landed == 3 {
      NoPutsLeft(ts, staged.index);
      MiddleFailure(hash, depth, base, ts, landed);
    } else if NonePut(ts, staged.index) {
      MiddleFailure(hash, depth, base, ts, landed);
    } else {
      var op :| Puts(ts, op) && op in staged.index;
      PutRefused(left.index, left.next, ts, op);
      ReplayNotes(hash, depth, left, ts);
    }
  }

  // ------------------------------------------------------------- where it fails

  lemma {:induction false} ReplayOne(hash: PairHash, depth: nat, base: Layer, t: TreeOp)
    ensures Replay(hash, depth, base, [t]) == Apply(hash, depth, base, Begun(base), t)
    ensures CountPuts([t]) == if t.Put? then 1 else 0
    ensures forall op :: (Puts([t], op) <==> t.Put? && t.op == op) && (Deletes([t], op) <==> t.Delete? && t.op == op)
  {
    assert [t][..0] == [] && Last([t]) == t;
    assert Replay(hash, depth, base, []) == Some(Begun(base));
    forall op ensures (Puts([t], op) <==> t.Put? && t.op == op) && (Deletes([t], op) <==> t.Delete? && t.op == op) {
      assert !Puts([], op) && !Deletes([], op);
    }
    assert CountPuts([]) == 0;
  }

  /** A block that puts one output into an empty store: after the index landed, applying it again is refused. */
  lemma {:induction false} PutNotReplayed(hash: PairHash, depth: nat, op: OutPoint, leaf: Hash, landed: nat)
    requires landed >= 2
    ensures Replay(hash, depth, EMPTY, [Put(op, leaf)]).Some?
    ensures var staged := Replay(hash, depth, EMPTY, [Put(op, leaf)]).value.layer;
            Replay(hash, depth, Landed(EMPTY, staged, landed), [Put(op, leaf)]) == None
  {
    ReplayOne(hash, depth, EMPTY, Put(op, leaf));
    var staged := Replay(hash, depth, EMPTY, [Put(op, leaf)]).value.layer;
    ReplayOne(hash, depth, Landed(EMPTY, staged, landed), Put(op, leaf));
  }

  /** A block that deletes the only output: after the index but not the nodes landed, applying it again is
      accepted and changes nothing, and the nodes stay those of the tree that still has the output. */
  lemma {:induction false} DeleteNotReplayed(hash: PairHash, depth: nat, op: OutPoint, leaf: Hash, landed: nat)
    requires leaf != ZERO_HASH && 2 <= landed <= 3
    ensures Replay(hash, depth, EMPTY, [Put(op, leaf)]).Some?
    ensures var base := Replay(hash, depth, EMPTY, [Put(op, leaf)]).value.layer;
            && LayerOk(hash, depth, base)
            && Replay(hash, depth, base, [Delete(op)]).Some?
            && var left := Landed(base, Replay(hash, depth, base, [Delete(op)]).value.layer, landed);
            && Replay(hash, depth, left, [Delete(op)]) == Some(Begun(left))
            && !TreeOk(hash, depth, left.nodes, left.leaves)
  {
    ReplayOne(hash, depth, EMPTY, Put(op, leaf));
    var base := Replay(hash, depth, EMPTY, [Put(op, leaf)]).value.layer;
    EmptyTreeOk(hash, depth);
    PutOk(hash, depth, EMPTY, Begun(EMPTY), op, leaf);
    ReplayOne(hash, depth, base, Delete(op));
    var staged := Replay(hash, depth, base, [Delete(op)]).value.layer;
    var left := Landed(base, staged, landed);
    ReplayOne(hash, depth, left, Delete(op));
    RightForSame(hash, depth, base.nodes, base.leaves, staged.leaves);
    assert Leaf(base.leaves, 0) == leaf && Leaf(staged.leaves, 0) == ZERO_HASH;
  }
}
