/** The store migration that rewrites blocks from the old header layout to the new one. */
module Migration {
  import opened Common

  /** What the scan of one height finds. */
  datatype Outcome = AlreadyNew | Migrate(bytes: Bytes) | Error

  function HeightAt(raw: Bytes, from: nat, to: nat): nat
    requires from <= to
  {
    if |raw| >= to then FromLE(raw[from..to]) else U64_MAX
  }

  /** The header without difficulty, nonce and cumulative difficulty, and the transactions untouched. */
  function Rewrite(raw: Bytes): Bytes
    requires |raw| >= 174
  {
    raw[0..4] + raw[4..36] + raw[36..68] + raw[68..76] + raw[88..96] + raw[96..128] + raw[128..132] + raw[132..136]
    + raw[140..142] + raw[142..174] + raw[174..]
  }

  /** Format detection for the block stored at height `h`. */
  function Classify(h: nat, raw: Bytes): Outcome {
    if HeightAt(raw, 76, 84) == h then AlreadyNew
    else if HeightAt(raw, 88, 96) != h then Error
    else if |raw| < 174 then Error
    else Migrate(Rewrite(raw))
  }

  /** The verdict on a block, by its length and the two places a height can stand. A block too short to
      hold a height there counts as holding the largest 64-bit number. */
  lemma {:induction false} ClassifyExactly(h: nat, raw: Bytes)
    ensures Classify(h, raw) == AlreadyNew <==>
              if |raw| < 84 then h == 0xFFFF_FFFF_FFFF_FFFF else FromLE(raw[76..84]) == h
    ensures Classify(h, raw).Migrate? <==> |raw| >= 174 && FromLE(raw[76..84]) != h && FromLE(raw[88..96]) == h
    ensures Classify(h, raw).Migrate? ==> Classify(h, raw).bytes == Rewrite(raw)
  {}

  // ------------------------------------------------------------- layouts

  /** The header fields both layouts keep, and the serialized transactions. */
  datatype Kept = Kept(
    version: Bytes, prevHash: Bytes, merkleRoot: Bytes, timestamp: Bytes, height: Bytes, blockHash: Bytes,
    txCount: Bytes, blockSize: Bytes, feeModelVersion: Bytes, stateRoot: Bytes, transactions: Bytes)

  /** Reads the old 174-byte header. */
  function ReadOld(raw: Bytes): Kept
    requires |raw| >= 174
  {
    Kept(raw[0..4], raw[4..36], raw[36..68], raw[68..76], raw[88..96], raw[96..128],
         raw[128..132], raw[132..136], raw[140..142], raw[142..174], raw[174..])
  }

  /** Reads the new 158-byte header. */
  function ReadNew(raw: Bytes): Kept
    requires |raw| >= 158
  {
    Kept(raw[0..4], raw[4..36], raw[36..68], raw[68..76], raw[76..84], raw[84..116],
         raw[116..120], raw[120..124], raw[124..126], raw[126..158], raw[158..])
  }

  /** The rewritten block is 16 bytes shorter. */
  lemma {:induction false} RewriteLength(raw: Bytes)
    requires |raw| >= 174
    ensures |Rewrite(raw)| == |raw| - 16
  {}

  /** A byte of the rewritten block is the byte of the old block that the dropped fields leave there. */
  function OldPosition(i: nat): nat {
    if i < 76 then i else if i < 124 then i + 12 else i + 16
  }

  lemma {:induction false} RewriteAt(raw: Bytes, i: nat)
    requires |raw| >= 174 && i < |raw| - 16
    ensures |Rewrite(raw)| == |raw| - 16
    ensures Rewrite(raw)[i] == raw[OldPosition(i)]
  {}

  lemma {:induction false} SliceMoved(s: Bytes, t: Bytes, from: nat, to: nat, at: nat)
    requires from <= to <= |s| && at + (to - from) <= |t|
    requires forall i :: from <= i < to ==> s[i] == t[at + (i - from)]
    ensures s[from..to] == t[at..at + (to - from)]
  {}

  lemma {:induction false} RewriteSlice(raw: Bytes, from: nat, to: nat)
    requires |raw| >= 174 && from <= to <= |raw| - 16
    requires to <= 76 || (76 <= from && to <= 124) || 124 <= from
    ensures |Rewrite(raw)| == |raw| - 16 && OldPosition(from) + (to - from) <= |raw|
    ensures Rewrite(raw)[from..to] == raw[OldPosition(from)..OldPosition(from) + (to - from)]
  {
    RewriteLength(raw);
    forall i | from <= i < to ensures Rewrite(raw)[i] == raw[OldPosition(from) + (i - from)] {
      RewriteAt(raw, i);
    }
    SliceMoved(Rewrite(raw), raw, from, to, OldPosition(from));
  }

  lemma {:induction false} SameFields(raw: Bytes, now: Bytes)
    requires |raw| >= 174 && |now| == |raw| - 16
    requires now[0..4] == raw[0..4] && now[4..36] == raw[4..36] && now[36..68] == raw[36..68]
    requires now[68..76] == raw[68..76] && now[76..84] == raw[88..96] && now[84..116] == raw[96..128]
    requires now[116..120] == raw[128..132] && now[120..124] == raw[132..136] && now[124..126] == raw[140..142]
    requires now[126..158] == raw[142..174] && now[158..] == raw[174..]
    ensures ReadNew(now) == ReadOld(raw)
  {}

  /** Read in the new layout, a rewritten block has the fields and transactions it had in the old. */
  lemma {:induction false} RewritePreservesMeaning(raw: Bytes)
    requires |raw| >= 174
    ensures |Rewrite(raw)| >= 158 && ReadNew(Rewrite(raw)) == ReadOld(raw)
  {
    RewriteSlice(raw, 0, 4); RewriteSlice(raw, 4, 36); RewriteSlice(raw, 36, 68); RewriteSlice(raw, 68, 76);
    RewriteSlice(raw, 76, 84); RewriteSlice(raw, 84, 116); RewriteSlice(raw, 116, 120); RewriteSlice(raw, 120, 124);
    RewriteSlice(raw, 124, 126); RewriteSlice(raw, 126, 158);
    RewriteSlice(raw, 158, |raw| - 16);
    SameFields(raw, Rewrite(raw));
  }

  /** A rewritten block is recognised as new. */
  lemma {:induction false} RewrittenIsNew(h: nat, raw: Bytes)
    requires Classify(h, raw).Migrate?
    ensures Classify(h, Rewrite(raw)) == AlreadyNew
  {
    RewriteSlice(raw, 76, 84);
  }

  // ------------------------------------------------------------- the scan

  datatype Report = Report(byHash: Tree, alreadyNew: nat, migrated: nat, errors: nat)

  /** What is stored for height `h`, if both index and block exist. */
  function Lookup(byHeight: Tree, byHash: Tree, h: nat): Option<Bytes> {
    var key := ToBE(h, 8);
    if key in byHeight && byHeight[key] in byHash then Some(byHash[byHeight[key]]) else None
  }

  function OutcomeAt(byHeight: Tree, byHash: Tree, h: nat): Outcome {
    match Lookup(byHeight, byHash, h)
    case None => Error
    case Some(raw) => Classify(h, raw)
  }

  function ScanOne(byHeight: Tree, r: Report, h: nat, dryRun: bool): Report {
    match OutcomeAt(byHeight, r.byHash, h)
    case AlreadyNew => r.(alreadyNew := r.alreadyNew + 1)
    case Error => r.(errors := r.errors + 1)
    case Migrate(bytes) =>
      r.(migrated := r.migrated + 1, byHash := if dryRun then r.byHash else r.byHash[byHeight[ToBE(h, 8)] := bytes])
  }

  /** The scan of the heights below `n`. */
  function Scan(byHeight: Tree, byHash: Tree, n: nat, dryRun: bool): Report {
    if n == 0 then Report(byHash, 0, 0, 0) else ScanOne(byHeight, Scan(byHeight, byHash, n - 1, dryRun), n - 1, dryRun)
  }

  class Store {
    var blocksByHeight: Tree
    var blocksByHash: Tree
    var meta: Tree

    /** Looks up the block of one height, detects its format and writes back what has to be rewritten. */
    method MigrateHeight(h: nat, dryRun: bool) returns (outcome: Outcome)
      modifies `blocksByHash
      ensures outcome == OutcomeAt(blocksByHeight, old(blocksByHash), h)
      ensures outcome.Migrate? ==> ToBE(h, 8) in blocksByHeight
      ensures blocksByHash == if outcome.Migrate? && !dryRun
                              then old(blocksByHash)[blocksByHeight[ToBE(h, 8)] := outcome.bytes]
                              else old(blocksByHash)
    {
      var raw := Lookup(blocksByHeight, blocksByHash, h);
      if raw == None {
        return Error;
      }
      outcome := Classify(h, raw.value);
      if outcome.Migrate? && !dryRun {
        blocksByHash := blocksByHash[blocksByHeight[ToBE(h, 8)] := outcome.bytes];
      }
    }

    /** Scans every height up to the recorded latest one; without a readable one there is nothing to do. */
    method Migrate(latestHeightKey: Bytes, dryRun: bool) returns (r: Option<Report>)
      modifies `blocksByHash
      ensures r.None? <==> latestHeightKey !in meta || |meta[latestHeightKey]| != 8
      ensures r.None? ==> blocksByHash == old(blocksByHash)
      ensures r.Some? ==>
                && r.value == Scan(blocksByHeight, old(blocksByHash), FromBE(meta[latestHeightKey]) + 1, dryRun)
                && r.value.byHash == blocksByHash
    {
      if latestHeightKey !in meta || |meta[latestHeightKey]| != 8 {
        return None;
      }
      var latest := FromBE(meta[latestHeightKey]);
      var alreadyNew, migrated, errors := 0, 0, 0;
      for h := 0 to latest + 1
        invariant Scan(blocksByHeight, old(blocksByHash), h, dryRun)
               == Report(blocksByHash, alreadyNew, migrated, errors)
      {
        var outcome := MigrateHeight(h, dryRun);
        match outcome {
          case AlreadyNew => alreadyNew := alreadyNew + 1;
          case Error => errors := errors + 1;
          case Migrate(_) => migrated := migrated + 1;
        }
      }
      r := Some(Report(blocksByHash, alreadyNew, migrated, errors));
    }
  }

  // ------------------------------------------------------------- what a run achieves

  /** The three counters account for every height scanned. */
  lemma {:induction false} CountersAddUp(byHeight: Tree, byHash: Tree, n: nat, dryRun: bool)
    ensures var r := Scan(byHeight, byHash, n, dryRun); r.alreadyNew + r.migrated + r.errors == n
  {
    if n > 0 {
      CountersAddUp(byHeight, byHash, n - 1, dryRun);
    }
  }

  /** A dry run writes nothing. */
  lemma {:induction false} DryRunWritesNothing(byHeight: Tree, byHash: Tree, n: nat)
    ensures Scan(byHeight, byHash, n, true).byHash == byHash
  {
    if n > 0 {
      DryRunWritesNothing(byHeight, byHash, n - 1);
    }
  }

  /** No two heights below `n` share a block hash. */
  ghost predicate DistinctHashes(byHeight: Tree, n: nat) {
    forall g: nat, h: nat :: g < h < n ==> Apart(byHeight, g, h)
  }

  predicate Apart(byHeight: Tree, g: nat, h: nat) {
    ToBE(g, 8) in byHeight && ToBE(h, 8) in byHeight ==> byHeight[ToBE(g, 8)] != byHeight[ToBE(h, 8)]
  }

  /** The stored bytes after the block at height `h` was scanned. */
  function Migrated(h: nat, raw: Bytes): Bytes {
    match Classify(h, raw)
    case Migrate(bytes) => bytes
    case _ => raw
  }

  function MigratedLookup(h: nat, stored: Option<Bytes>): Option<Bytes> {
    match stored
    case None => None
    case Some(raw) => Some(Migrated(h, raw))
  }

  lemma {:induction false} ScanOneOther(byHeight: Tree, r: Report, g: nat, h: nat)
    requires Apart(byHeight, g, h) && g != h
    ensures Lookup(byHeight, ScanOne(byHeight, r, h, false).byHash, g) == Lookup(byHeight, r.byHash, g)
  {}

  lemma {:induction false} ScanOneSelf(byHeight: Tree, r: Report, h: nat)
    ensures Lookup(byHeight, ScanOne(byHeight, r, h, false).byHash, h)
         == MigratedLookup(h, Lookup(byHeight, r.byHash, h))
  {}

  /** With distinct hashes, each height below `n` has been migrated by its own block alone and the
      heights from `n` on are as before. */
  lemma {:induction false} ScanResult(byHeight: Tree, byHash: Tree, n: nat, top: nat, h: nat)
    requires DistinctHashes(byHeight, top) && n <= top && h < top
    ensures Lookup(byHeight, Scan(byHeight, byHash, n, false).byHash, h)
         == if h < n then MigratedLookup(h, Lookup(byHeight, byHash, h)) else Lookup(byHeight, byHash, h)
    decreases n
  {
    if n > 0 {
      ScanResult(byHeight, byHash, n - 1, top, h);
      var r := Scan(byHeight, byHash, n - 1, false);
      if h == n - 1 {
        ScanOneSelf(byHeight, r, h);
      } else {
        assert if h < n - 1 then Apart(byHeight, h, n - 1) else Apart(byHeight, n - 1, h);
        ScanOneOther(byHeight, r, h, n - 1);
      }
    }
  }

  /** A full run rewrites an old-format block, keeping its fields and transactions, exactly when the
      eight bytes where the new layout has its height do not read as that height; otherwise the block
      is taken for new and left as it is. */
  lemma {:induction false} OldBlockMigrated(byHeight: Tree, byHash: Tree, top: nat, h: nat, raw: Bytes)
    requires DistinctHashes(byHeight, top) && h < top
    requires ToBE(h, 8) in byHeight && byHeight[ToBE(h, 8)] in byHash && byHash[byHeight[ToBE(h, 8)]] == raw
    requires |raw| >= 174 && FromLE(raw[88..96]) == h
    ensures var after := Scan(byHeight, byHash, top, false).byHash;
            var hash := byHeight[ToBE(h, 8)];
            && hash in after
            && (FromLE(raw[76..84]) != h <==> after[hash] == Rewrite(raw))
            && (FromLE(raw[76..84]) != h ==> |after[hash]| >= 158 && ReadNew(after[hash]) == ReadOld(raw))
            && (FromLE(raw[76..84]) == h ==> after[hash] == raw)
  {
    ScanResult(byHeight, byHash, top, top, h);
    RewriteLength(raw);
    RewritePreservesMeaning(raw);
  }

  /** A second run changes nothing: it finds every block the first one migrated already new. */
  lemma {:induction false} SecondRunChangesNothing(byHeight: Tree, byHash: Tree, n: nat, top: nat)
    requires DistinctHashes(byHeight, top) && n <= top
    ensures var once := Scan(byHeight, byHash, top, false).byHash;
            var first, second := Scan(byHeight, byHash, n, false), Scan(byHeight, once, n, false);
            && second.byHash == once
            && second.migrated == 0
            && second.alreadyNew == first.alreadyNew + first.migrated
            && second.errors == first.errors
    decreases n
  {
    if n > 0 {
      SecondRunChangesNothing(byHeight, byHash, n - 1, top);
      var h := n - 1;
      ScanResult(byHeight, byHash, top, top, h);
      ScanResult(byHeight, byHash, h, top, h);
      SecondOutcome(h, Lookup(byHeight, byHash, h));
    }
  }

  /** What the second run finds where the first found `stored`. */
  lemma {:induction false} SecondOutcome(h: nat, stored: Option<Bytes>)
    ensures match stored
            case None => MigratedLookup(h, stored) == None
            case Some(raw) =>
              match Classify(h, raw)
              case AlreadyNew => Classify(h, Migrated(h, raw)) == AlreadyNew
              case Error => Classify(h, Migrated(h, raw)) == Error
              case Migrate(_) => Classify(h, Migrated(h, raw)) == AlreadyNew
  {
    if stored.Some? && Classify(h, stored.value).Migrate? {
      RewrittenIsNew(h, stored.value);
    }
  }
}
