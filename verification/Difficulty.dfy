/** Difficulty adjustment: the consensus manager's arithmetic and the ledger's own version of it. */
module Difficulty {
  import opened Common

  datatype Error = ZeroDifficulty | InvalidConfig | DivisionByZero

  datatype Config = Config(
    initialDifficulty: nat, adjustmentInterval: nat, targetTimespan: nat,
    minDifficulty: nat, maxDifficulty: nat, maxAdjustmentFactor: nat)

  /** `DifficultyConfig::validate`. */
  predicate Valid(c: Config) {
    && c.adjustmentInterval > 0 && c.targetTimespan > 0 && c.initialDifficulty > 0
    && c.minDifficulty <= c.maxDifficulty && c.maxAdjustmentFactor > 0
  }

  /** A 64-bit product that wraps around. */
  function WrapMul(a: nat, b: nat): nat { (a * b) % (U64_MAX + 1) }

  /** A 64-bit product that saturates. */
  function SatMul(a: nat, b: nat): nat { Min(a * b, U64_MAX) }

  // ------------------------------------------------------------- the manager

  function MinTimespan(c: Config): nat
    requires c.maxAdjustmentFactor > 0
  {
    Max(c.targetTimespan / c.maxAdjustmentFactor, 1)
  }

  function Clamped(c: Config, actual: nat): nat
    requires c.maxAdjustmentFactor > 0
  {
    Min(Max(actual, MinTimespan(c)), WrapMul(c.targetTimespan, c.maxAdjustmentFactor))
  }

  /** The quotient before it is bounded by the configured range. */
  function Quotient(c: Config, current: nat, span: nat): nat
    requires span > 0
  {
    SatMul(current, c.targetTimespan) / span
  }

  function Bounded(c: Config, q: nat): nat {
    Min(Max(q, c.minDifficulty), c.maxDifficulty)
  }

  function NewDifficulty(c: Config, current: nat, actual: nat): Result<nat, Error>
    requires c.maxAdjustmentFactor > 0
  {
    if current == 0 then Err(ZeroDifficulty)
    else if Clamped(c, actual) == 0 then Err(DivisionByZero)
    else Ok(Bounded(c, Quotient(c, current, Clamped(c, actual))))
  }

  predicate ShouldAdjust(c: Config, height: nat)
    requires c.adjustmentInterval > 0
  {
    height >= c.adjustmentInterval && height % c.adjustmentInterval == 0
  }

  function AdjustDifficulty(c: Config, height: nat, current: nat, start: nat, end: nat): Result<Option<nat>, Error>
    requires c.adjustmentInterval > 0 && c.maxAdjustmentFactor > 0
  {
    if !ShouldAdjust(c, height) || SaturatingSub(end, start) == 0 then Ok(None)
    else
      match NewDifficulty(c, current, SaturatingSub(end, start))
      case Err(e) => Err(e)
      case Ok(d) => Ok(Some(d))
  }

  /** The widest timespan the clamp allows fits 64 bits. */
  predicate NoOverflow(c: Config) {
    c.targetTimespan * c.maxAdjustmentFactor <= U64_MAX
  }

  // ------------------------------------------------------------- arithmetic facts

  lemma {:induction false} MulAtLeast(a: nat, b: nat)
    requires b > 0
    ensures a * b >= a
  {}

  lemma {:induction false} DivBack(x: nat, d: nat)
    requires d > 0
    ensures (x / d) * d <= x
  {}

  lemma {:induction false} DivAntitone(x: nat, d: nat, d': nat)
    requires 0 < d <= d'
    ensures x / d' <= x / d
  {
    var q := x / d';
    DivBack(x, d');
    MulMonotone(d, d', q);
    assert q * d == d * q && q * d' == d' * q;
    DivLower(x, d, q);
  }

  lemma {:induction false} MulCancel(a: nat, b: nat, d: nat)
    requires a * d < b * d
    ensures a < b
  {
    assert a >= b ==> (a - b) * d >= 0;
  }

  /** `q` copies of `d` fit in `x`. */
  lemma {:induction false} DivLower(x: nat, d: nat, q: nat)
    requires d > 0 && q * d <= x
    ensures q <= x / d
  {
    assert q * d < (x / d + 1) * d;
    MulCancel(q, x / d + 1, d);
  }

  lemma {:induction false} DivUpper(x: nat, d: nat, q: nat)
    requires d > 0 && x < (q + 1) * d
    ensures x / d <= q
  {
    assert (x / d) * d < (q + 1) * d;
    MulCancel(x / d, q + 1, d);
  }

  lemma {:induction false} DivExact(a: nat, d: nat)
    requires d > 0
    ensures (a * d) / d == a
  {
    DivLower(a * d, d, a);
    assert a * d < (a + 1) * d == a * d + d;
    DivUpper(a * d, d, a);
  }

  // ------------------------------------------------------------- what the manager guarantees

  /** With room for the widest timespan, the clamp never yields zero and keeps the target. */
  lemma {:induction false} ClampedRange(c: Config, actual: nat)
    requires Valid(c) && NoOverflow(c)
    ensures 1 <= MinTimespan(c) <= c.targetTimespan <= WrapMul(c.targetTimespan, c.maxAdjustmentFactor)
    ensures WrapMul(c.targetTimespan, c.maxAdjustmentFactor) == c.targetTimespan * c.maxAdjustmentFactor
    ensures 1 <= MinTimespan(c) <= Clamped(c, actual) <= c.targetTimespan * c.maxAdjustmentFactor
  {
    MulAtLeast(c.targetTimespan, c.maxAdjustmentFactor);
    DivAntitone(c.targetTimespan, 1, c.maxAdjustmentFactor);
  }

  /** Every adjustment of a positive difficulty succeeds and lands within the configured bounds. */
  lemma {:induction false} AlwaysBounded(c: Config, current: nat, actual: nat)
    requires Valid(c) && NoOverflow(c) && current > 0
    ensures NewDifficulty(c, current, actual).Ok?
    ensures c.minDifficulty <= NewDifficulty(c, current, actual).value <= c.maxDifficulty
  {
    ClampedRange(c, actual);
  }

  /** A difficulty of zero is refused. */
  lemma {:induction false} ZeroRefused(c: Config, actual: nat)
    requires c.maxAdjustmentFactor > 0
    ensures NewDifficulty(c, 0, actual) == Err(ZeroDifficulty)
  {}

  /** Past 64 bits the widest timespan wraps around; there is nothing to divide by exactly when it wraps to
      zero. */
  lemma {:induction false} DividesByZeroExactly(c: Config, current: nat, actual: nat)
    requires Valid(c) && current > 0
    ensures NewDifficulty(c, current, actual) == Err(DivisionByZero) <==>
              (c.targetTimespan * c.maxAdjustmentFactor) % 0x1_0000_0000_0000_0000 == 0
    ensures NewDifficulty(c, current, actual).Err? ==> NewDifficulty(c, current, actual) == Err(DivisionByZero)
  {}

  /** At a height that ends an interval of positive length the difficulty is set within the bounds;
      at any other height, or over an interval of no length, it is left alone. */
  lemma {:induction false} AdjustsOnlyAtIntervalEnds(c: Config, height: nat, current: nat, start: nat, end: nat)
    requires Valid(c) && NoOverflow(c) && current > 0
    ensures AdjustDifficulty(c, height, current, start, end).Ok?
    ensures var d := AdjustDifficulty(c, height, current, start, end).value;
            && (d.Some? <==> height > 0 && height % c.adjustmentInterval == 0 && start < end)
            && (d.Some? ==> c.minDifficulty <= d.value <= c.maxDifficulty)
  {
    AlwaysBounded(c, current, SaturatingSub(end, start));
    if 0 < height < c.adjustmentInterval {
      RemainderOfSmaller(height, c.adjustmentInterval);
    }
  }

  lemma {:induction false} RemainderOfSmaller(n: nat, d: nat)
    requires n < d
    ensures n % d == n
  {}

  /** A slower interval never gives a higher difficulty. */
  lemma {:induction false} AntitoneInTimespan(c: Config, current: nat, actual: nat, slower: nat)
    requires Valid(c) && NoOverflow(c) && current > 0 && actual <= slower
    ensures NewDifficulty(c, current, actual).Ok? && NewDifficulty(c, current, slower).Ok?
    ensures NewDifficulty(c, current, slower).value <= NewDifficulty(c, current, actual).value
  {
    ClampedRange(c, actual);
    ClampedRange(c, slower);
    DivAntitone(SatMul(current, c.targetTimespan), Clamped(c, actual), Clamped(c, slower));
  }

  /** An interval on target changes nothing but the bounds. */
  lemma {:induction false} OnTargetKeepsDifficulty(c: Config, current: nat)
    requires Valid(c) && NoOverflow(c) && current > 0 && current * c.targetTimespan <= U64_MAX
    ensures NewDifficulty(c, current, c.targetTimespan) == Ok(Bounded(c, current))
  {
    ClampedRange(c, c.targetTimespan);
    DivExact(current, c.targetTimespan);
  }

  /** A height and times at which an adjustment happens. */
  predicate EndsInterval(c: Config, height: nat, start: nat, end: nat) {
    c.adjustmentInterval > 0 && height > 0 && height % c.adjustmentInterval == 0 && start < end
  }

  /** What is set then is the new difficulty for the time the interval took. */
  lemma {:induction false} AdjustsByElapsedTime(c: Config, height: nat, current: nat, start: nat, end: nat)
    requires Valid(c) && EndsInterval(c, height, start, end)
    ensures match NewDifficulty(c, current, end - start)
            case Err(e) => AdjustDifficulty(c, height, current, start, end) == Err(e)
            case Ok(d) => AdjustDifficulty(c, height, current, start, end) == Ok(Some(d))
  {
    if height < c.adjustmentInterval {
      RemainderOfSmaller(height, c.adjustmentInterval);
    }
  }

  /** An interval on target keeps the difficulty within the bounds, whenever it ran. */
  lemma {:induction false} AdjustOnTarget(c: Config, height: nat, current: nat, start: nat)
    requires Valid(c) && NoOverflow(c) && current > 0 && current * c.targetTimespan <= U64_MAX
    requires EndsInterval(c, height, start, start + c.targetTimespan)
    ensures AdjustDifficulty(c, height, current, start, start + c.targetTimespan)
         == Ok(Some(Min(Max(current, c.minDifficulty), c.maxDifficulty)))
  {
    AdjustsByElapsedTime(c, height, current, start, start + c.targetTimespan);
    OnTargetKeepsDifficulty(c, current);
  }

  /** Only the elapsed time counts: moving both times changes nothing. */
  lemma {:induction false} AdjustIgnoresShift(c: Config, height: nat, current: nat, start: nat, end: nat, shift: nat)
    requires c.adjustmentInterval > 0 && c.maxAdjustmentFactor > 0
    ensures AdjustDifficulty(c, height, current, start + shift, end + shift)
         == AdjustDifficulty(c, height, current, start, end)
  {
    assert SaturatingSub(end + shift, start + shift) == SaturatingSub(end, start);
  }

  /** A longer interval never sets a higher difficulty. */
  lemma {:induction false} AdjustAntitone(c: Config, height: nat, current: nat, start: nat, end: nat,
                                          start': nat, end': nat)
    requires Valid(c) && NoOverflow(c) && current > 0
    requires EndsInterval(c, height, start, end) && EndsInterval(c, height, start', end')
    requires end - start <= end' - start'
    ensures var fast := AdjustDifficulty(c, height, current, start, end);
            var slow := AdjustDifficulty(c, height, current, start', end');
            fast.Ok? && fast.value.Some? && slow.Ok? && slow.value.Some? && slow.value.value <= fast.value.value
  {
    AdjustsByElapsedTime(c, height, current, start, end);
    AdjustsByElapsedTime(c, height, current, start', end');
    AntitoneInTimespan(c, current, end - start, end' - start');
  }

  // ------------------------------------------------------------- growth and shrinkage per adjustment

  /** What an adjustment of a positive difficulty returns. */
  function Adjusted(c: Config, current: nat, actual: nat): nat
    requires Valid(c) && NoOverflow(c) && current > 0
  {
    ClampedRange(c, actual);
    Bounded(c, Quotient(c, current, Clamped(c, actual)))
  }

  lemma {:induction false} AdjustedIs(c: Config, current: nat, actual: nat)
    requires Valid(c) && NoOverflow(c) && current > 0
    ensures NewDifficulty(c, current, actual) == Ok(Adjusted(c, current, actual))
  {
    ClampedRange(c, actual);
  }

  /** No timespan gives more than `limit`. */
  ghost predicate NeverGrowsPast(c: Config, current: nat, limit: nat)
    requires Valid(c) && NoOverflow(c) && current > 0
  {
    forall actual: nat :: Adjusted(c, current, actual) <= limit
  }

  /** No timespan gives less than `limit`. */
  ghost predicate NeverShrinksPast(c: Config, current: nat, limit: nat)
    requires Valid(c) && NoOverflow(c) && current > 0
  {
    forall actual: nat :: Adjusted(c, current, actual) >= limit
  }

  lemma {:induction false} SplitProduct(current: nat, target: nat, factor: nat, m: nat, r: nat)
    requires target == factor * m + r
    ensures current * target == (current * factor) * m + current * r
    ensures (current * factor + 1) * m == (current * factor) * m + m
  {
    assert current * (factor * m + r) == current * (factor * m) + current * r;
    assert current * (factor * m) == (current * factor) * m;
  }

  lemma {:induction false} DivAtMost(x: nat, d: nat, q: nat)
    requires d > 0
    ensures x / d <= q <==> x < (q + 1) * d
  {
    if x < (q + 1) * d {
      DivUpper(x, d, q);
    } else {
      DivLower(x, d, q + 1);
    }
  }

  lemma {:induction false} DivAtLeast(x: nat, d: nat, q: nat)
    requires d > 0
    ensures q <= x / d <==> q * d <= x
  {
    if q * d <= x {
      DivLower(x, d, q);
    } else if q > 0 {
      DivUpper(x, d, q - 1);
    }
  }

  /** An interval of no length is the fastest. */
  lemma {:induction false} FastestIsWorst(c: Config, current: nat, limit: nat)
    requires Valid(c) && NoOverflow(c) && current > 0
    ensures NeverGrowsPast(c, current, limit) <==> Adjusted(c, current, 0) <= limit
    ensures Adjusted(c, current, 0) == Bounded(c, Quotient(c, current, MinTimespan(c)))
  {
    ClampedRange(c, 0);
    forall actual: nat ensures Adjusted(c, current, actual) <= Adjusted(c, current, 0) {
      AntitoneInTimespan(c, current, 0, actual);
      AdjustedIs(c, current, 0);
      AdjustedIs(c, current, actual);
    }
  }

  /** An interval of the factor times the target is the slowest. */
  lemma {:induction false} SlowestIsWorst(c: Config, current: nat, limit: nat)
    requires Valid(c) && NoOverflow(c) && current > 0
    ensures c.targetTimespan * c.maxAdjustmentFactor > 0
    ensures NeverShrinksPast(c, current, limit)
       <==> Bounded(c, Quotient(c, current, c.targetTimespan * c.maxAdjustmentFactor)) >= limit
  {
    var widest := c.targetTimespan * c.maxAdjustmentFactor;
    ClampedRange(c, widest);
    assert Clamped(c, widest) == widest;
    forall actual: nat ensures Adjusted(c, current, actual) >= Adjusted(c, current, widest) {
      ClampedRange(c, actual);
      DivAntitone(SatMul(current, c.targetTimespan), Clamped(c, actual), widest);
    }
  }

  /** The condition on growth in terms of the remainder, for a product within 64 bits. */
  lemma {:induction false} RemainderForm(c: Config, current: nat)
    requires Valid(c) && NoOverflow(c) && current * c.targetTimespan <= U64_MAX
    ensures SatMul(current, c.targetTimespan) < (current * c.maxAdjustmentFactor + 1) * MinTimespan(c)
       <==> c.targetTimespan < c.maxAdjustmentFactor
            || current * (c.targetTimespan % c.maxAdjustmentFactor) < c.targetTimespan / c.maxAdjustmentFactor
  {
    var t, f := c.targetTimespan, c.maxAdjustmentFactor;
    if t < f {
      assert t / f == 0;
      assert current * t <= current * f;
    } else {
      DivLower(t, f, 1);
      SplitProduct(current, t, f, t / f, t % f);
    }
  }

  /** The promise that one adjustment at most multiplies the difficulty by the factor holds of the result,
      for every timespan, exactly when the upper bound does not exceed that multiple, or the lower bound
      does not and the target divides by the factor closely enough for that difficulty. */
  lemma {:induction false} GrowthWithinFactor(c: Config, current: nat)
    requires Valid(c) && NoOverflow(c) && current > 0
    ensures var limit := current * c.maxAdjustmentFactor;
            var close := SatMul(current, c.targetTimespan) < (limit + 1) * MinTimespan(c);
            && (NeverGrowsPast(c, current, limit) <==>
                  c.maxDifficulty <= limit || (c.minDifficulty <= limit && close))
            && (current * c.targetTimespan <= U64_MAX ==>
                  (close <==> c.targetTimespan < c.maxAdjustmentFactor
                              || current * (c.targetTimespan % c.maxAdjustmentFactor)
                                 < c.targetTimespan / c.maxAdjustmentFactor))
  {
    var limit := current * c.maxAdjustmentFactor;
    FastestIsWorst(c, current, limit);
    DivAtMost(SatMul(current, c.targetTimespan), MinTimespan(c), limit);
    if current * c.targetTimespan <= U64_MAX {
      RemainderForm(c, current);
    }
  }

  /** The promise that it at most divides by the factor, in whole numbers, holds of the result for every
      timespan exactly when the upper bound allows it and the product does not saturate below it. */
  lemma {:induction false} ShrinkWithinFactor(c: Config, current: nat)
    requires Valid(c) && NoOverflow(c) && current > 0
    ensures var limit := current / c.maxAdjustmentFactor;
            var enough := limit * (c.targetTimespan * c.maxAdjustmentFactor) <= SatMul(current, c.targetTimespan);
            && (NeverShrinksPast(c, current, limit) <==>
                  limit <= c.maxDifficulty && (limit <= c.minDifficulty || enough))
            && (current * c.targetTimespan <= U64_MAX ==> enough)
  {
    var t, f, limit := c.targetTimespan, c.maxAdjustmentFactor, current / c.maxAdjustmentFactor;
    var product, widest := SatMul(current, t), t * f;
    SlowestIsWorst(c, current, limit);
    DivAtLeast(product, widest, limit);
    BoundedAtLeast(c, product / widest, limit);
    if current * t <= U64_MAX {
      Regroup(current, t, f);
    }
  }

  lemma {:induction false} BoundedAtLeast(c: Config, q: nat, limit: nat)
    requires Valid(c)
    ensures Bounded(c, q) >= limit <==> limit <= c.maxDifficulty && (limit <= c.minDifficulty || limit <= q)
  {}

  lemma {:induction false} Regroup(current: nat, t: nat, f: nat)
    requires f > 0
    ensures (current / f) * (t * f) <= current * t
  {
    var limit := current / f;
    DivBack(current, f);
    MulMonotone(limit * f, current, t);
    assert limit * (t * f) == (limit * f) * t;
  }

  lemma {:induction false} MulMonotone(a: nat, b: nat, k: nat)
    requires a <= b
    ensures a * k <= b * k
  {}

  // ------------------------------------------------------------- the default configuration, and where it fails

  const DEFAULT: Config := Config(0x1d00ffff, 2016, 1209600, 1, U32_MAX, 4)

  /** The default configuration keeps both promises for every 32-bit difficulty and every timespan. */
  lemma {:induction false} DefaultWithinFactor(current: nat, actual: nat)
    requires 0 < current <= U32_MAX
    ensures NewDifficulty(DEFAULT, current, actual).Ok?
    ensures current / 4 <= NewDifficulty(DEFAULT, current, actual).value <= 4 * current
  {
    GrowthWithinFactor(DEFAULT, current);
    ShrinkWithinFactor(DEFAULT, current);
    AdjustedIs(DEFAULT, current, actual);
  }

  /** Two valid configurations that multiply by more than their factor of 4: a target of 5 seconds, where
      the quarter is rounded down to 1, and the default with a minimum of 1000. */
  lemma {:induction false} GrowthExceedsFactor()
    ensures Valid(DEFAULT.(targetTimespan := 5)) && NewDifficulty(DEFAULT.(targetTimespan := 5), 1, 0) == Ok(5)
    ensures Valid(DEFAULT.(minDifficulty := 1000))
    ensures NewDifficulty(DEFAULT.(minDifficulty := 1000), 1, 1209600) == Ok(1000)
  {
    assert SatMul(1, 5) / 1 == 5;
  }

  /** Two that divide by more: the default with a maximum of 1, and a target so long that the product
      saturates, which divides by 1024. */
  lemma {:induction false} ShrinkExceedsFactor()
    ensures Valid(DEFAULT.(maxDifficulty := 1)) && NewDifficulty(DEFAULT.(maxDifficulty := 1), 8, 1209600) == Ok(1)
    ensures var long := DEFAULT.(targetTimespan := 0x100_0000_0000);
            Valid(long) && NoOverflow(long) && NewDifficulty(long, U32_MAX, 0x400_0000_0000) == Ok(0x3F_FFFF)
  {
    var long := DEFAULT.(targetTimespan := 0x100_0000_0000);
    assert Clamped(long, 0x400_0000_0000) == 0x400_0000_0000;
    assert SatMul(U32_MAX, 0x100_0000_0000) == U64_MAX;
  }

  // ------------------------------------------------------------- the ledger's version

  /** `calculate_difficulty_with_config`; none when its clamp has an empty range. */
  function LedgerDifficulty(bits: nat, start: nat, end: nat, target: nat, increase: nat, decrease: nat): Option<nat> {
    if target == 0 then Some(bits)
    else
      var lo, hi := target / Max(increase, 1), SatMul(target, decrease);
      if lo > hi then None
      else
        var span := Min(Max(SaturatingSub(end, start), lo), hi);
        if span == 0 then Some(bits) else Some(Max((WrapMul(bits, target) / span) % (U32_MAX + 1), 1))
  }

  /** The ledger's version at its edges: without a target, or with nothing to divide by, the difficulty stays;
      the clamp has an empty range exactly for a decrease factor of zero and a target that reaches the other. */
  lemma {:induction false} LedgerDifficultyEdges(bits: nat, start: nat, end: nat, target: nat, increase: nat,
                                                 decrease: nat)
    requires target <= U64_MAX
    ensures target == 0 ==> LedgerDifficulty(bits, start, end, target, increase, decrease) == Some(bits)
    ensures LedgerDifficulty(bits, start, end, target, increase, decrease) == None <==>
              target > 0 && decrease == 0 && target >= increase
    ensures 0 < target < increase && end <= start ==>
              LedgerDifficulty(bits, start, end, target, increase, decrease) == Some(bits)
  {
    var f := Max(increase, 1);
    DivAntitone(target, 1, f);
    if target >= f {
      DivLower(target, f, 1);
    } else {
      DivUpper(target, f, 0);
    }
    if decrease > 0 {
      MulAtLeast(target, decrease);
    }
  }

  /** The two versions agree, for equal factors and unlimited bounds, exactly when the quotient fits
      32 bits or happens to be cut to the largest 32-bit value. */
  lemma {:induction false} VersionsAgree(c: Config, current: nat, start: nat, end: nat)
    requires Valid(c) && NoOverflow(c) && c.minDifficulty == 1 && c.maxDifficulty == U32_MAX
    requires current > 0 && current * c.targetTimespan <= U64_MAX && c.targetTimespan >= c.maxAdjustmentFactor
    ensures var span := SaturatingSub(end, start);
            var f := c.maxAdjustmentFactor;
            && Clamped(c, span) > 0
            && var q := Quotient(c, current, Clamped(c, span));
            (NewDifficulty(c, current, span).Ok?
             && LedgerDifficulty(current, start, end, c.targetTimespan, f, f)
                == Some(NewDifficulty(c, current, span).value))
            <==> q <= U32_MAX || q % (U32_MAX + 1) == U32_MAX
  {
    var span := SaturatingSub(end, start);
    ClampedRange(c, span);
    DivLower(c.targetTimespan, c.maxAdjustmentFactor, 1);
    SmallMod(current * c.targetTimespan);
  }

  lemma {:induction false} SmallMod(x: nat)
    requires x <= U64_MAX
    ensures x % (U64_MAX + 1) == x
  {}

  // ------------------------------------------------------------- the manager object

  class DifficultyManager {
    var config: Config

    constructor (config: Config)
      ensures this.config == config
    {
      this.config := config;
    }

    /** Applies a governance update as a whole, or not at all if the result would be invalid. */
    method ApplyGovernanceUpdate(initial: Option<nat>, interval: Option<nat>, target: Option<nat>) returns (ok: bool)
      modifies this
      ensures ok ==> Valid(config)
      ensures ok ==> config == old(config).(
                initialDifficulty := if initial.Some? then initial.value else old(config).initialDifficulty,
                adjustmentInterval := if interval.Some? then interval.value else old(config).adjustmentInterval,
                targetTimespan := if target.Some? then target.value else old(config).targetTimespan)
      ensures !ok ==> config == old(config)
      ensures Valid(old(config)) ==>
                (ok <==> initial != Some(0) && interval != Some(0) && target != Some(0))
    {
      var next := config;
      if initial.Some? {
        next := next.(initialDifficulty := initial.value);
      }
      if interval.Some? {
        next := next.(adjustmentInterval := interval.value);
      }
      if target.Some? {
        next := next.(targetTimespan := target.value);
      }
      ok := Valid(next);
      if ok {
        config := next;
      }
    }

    method SetMinDifficulty(min: nat) returns (ok: bool)
      modifies this
      ensures ok <==> min <= old(config).maxDifficulty
      ensures config == if ok then old(config).(minDifficulty := min) else old(config)
      ensures Valid(old(config)) ==> Valid(config)
    {
      ok := min <= config.maxDifficulty;
      if ok {
        config := config.(minDifficulty := min);
      }
    }

    method SetMaxDifficulty(max: nat) returns (ok: bool)
      modifies this
      ensures ok <==> max >= old(config).minDifficulty
      ensures config == if ok then old(config).(maxDifficulty := max) else old(config)
      ensures Valid(old(config)) ==> Valid(config)
    {
      ok := max >= config.minDifficulty;
      if ok {
        config := config.(maxDifficulty := max);
      }
    }

    method SetMaxAdjustmentFactor(factor: nat) returns (ok: bool)
      modifies this
      ensures ok <==> factor != 0
      ensures config == if ok then old(config).(maxAdjustmentFactor := factor) else old(config)
      ensures Valid(old(config)) ==> Valid(config)
    {
      ok := factor != 0;
      if ok {
        config := config.(maxAdjustmentFactor := factor);
      }
    }
  }
}
