/** One token bucket: the 64-bit arithmetic of a single call, and what any run of
    calls adds up to. */
module TokenBucket {

  import opened Policy
  import opened Results

  const NS: nat := 1_000_000_000
  const U64: nat := 0x1_0000_0000_0000_0000

  type Clock64 = t: nat | t < U64

  datatype Bucket = Bucket(tokens: nat, updatedNs: Clock64, blockedUntilNs: Clock64)

  /** A block of 0 means the bucket never opens a blocking window. */
  datatype Limits = Limits(packetsPerSecond: U32, burst: U32, blockNs: Clock64)

  predicate Active(l: Limits)
  {
    l.packetsPerSecond > 0 && l.burst > 0
  }

  /** Product of elapsed time and rate, truncated to 64 bits. */
  function Credit(b: Bucket, l: Limits, now: Clock64): (c: nat)
    ensures c < U64
  {
    ((now - b.updatedNs) % U64) * l.packetsPerSecond % U64
  }

  predicate Blocked(b: Bucket, l: Limits, now: Clock64)
  {
    l.blockNs > 0 && b.blockedUntilNs > now
  }

  function Min(a: nat, b: nat): nat
  {
    if a < b then a else b
  }

  /** The bucket after one call, and whether the packet is limited. */
  function Step(bucket: Option<Bucket>, l: Limits, now: Clock64): (Option<Bucket>, bool)
  {
    if !Active(l) then (bucket, false)
    else if bucket.None? then (Some(Bucket(l.burst - 1, now, 0)), false)
    else
      var b := bucket.value;
      if Blocked(b, l, now) then (bucket, true)
      else
        var refill := Credit(b, l, now) / NS;
        var tokens := if refill > 0 then Min(b.tokens + refill, l.burst) else b.tokens;
        var updated := if refill > 0 then now else b.updatedNs;
        if tokens == 0 then
          (Some(Bucket(b.tokens, updated, if l.blockNs > 0 then (now + l.blockNs) % U64 else b.blockedUntilNs)), true)
        else (Some(Bucket(tokens - 1, updated, b.blockedUntilNs)), false)
  }

  ghost predicate Valid(bucket: Option<Bucket>, l: Limits, now: Clock64)
  {
    bucket.Some? ==> bucket.value.tokens <= l.burst && bucket.value.updatedNs <= now
  }

  // ------------------------------------------------------------ whole runs

  type Times = seq<Clock64>

  ghost predicate Monotone(ts: Times)
  {
    forall i, j :: 0 <= i < j < |ts| ==> ts[i] <= ts[j]
  }

  /** The bucket after calls at the given times. */
  function After(bucket: Option<Bucket>, l: Limits, ts: Times): Option<Bucket>
    decreases ts
  {
    if ts == [] then bucket else After(Step(bucket, l, ts[0]).0, l, ts[1..])
  }

  function Admitted(bucket: Option<Bucket>, l: Limits, ts: Times): nat
    decreases ts
  {
    if ts == [] then 0
    else
      var (after, limited) := Step(bucket, l, ts[0]);
      (if limited then 0 else 1) + Admitted(after, l, ts[1..])
  }

  /** Tokens a call adds before clamping; none while blocked or on creation. */
  function RefillOf(bucket: Option<Bucket>, l: Limits, now: Clock64): nat
  {
    if !Active(l) || bucket.None? || Blocked(bucket.value, l, now) then 0
    else Credit(bucket.value, l, now) / NS
  }

  /** Tokens a call throws away because the bucket is full. */
  function ClampOf(bucket: Option<Bucket>, l: Limits, now: Clock64): nat
  {
    var refill := RefillOf(bucket, l, now);
    if refill > 0 && bucket.value.tokens + refill > l.burst then bucket.value.tokens + refill - l.burst else 0
  }

  function Refilled(bucket: Option<Bucket>, l: Limits, ts: Times): nat
    decreases ts
  {
    if ts == [] then 0 else RefillOf(bucket, l, ts[0]) + Refilled(Step(bucket, l, ts[0]).0, l, ts[1..])
  }

  function Clamped(bucket: Option<Bucket>, l: Limits, ts: Times): nat
    decreases ts
  {
    if ts == [] then 0 else ClampOf(bucket, l, ts[0]) + Clamped(Step(bucket, l, ts[0]).0, l, ts[1..])
  }

  lemma StepKeepsValid(bucket: Option<Bucket>, l: Limits, before: Clock64, now: Clock64)
    requires Active(l) && Valid(bucket, l, before) && before <= now
    ensures Valid(Step(bucket, l, now).0, l, now)
    ensures Step(bucket, l, now).0.Some?
  {
  }

  /** One call: what it admits, throws away and leaves is what it found and added. */
  lemma StepConserves(b: Bucket, l: Limits, now: Clock64)
    requires Active(l) && b.tokens <= l.burst
    ensures var (after, limited) := Step(Some(b), l, now);
            && after.Some? && after.value.tokens <= l.burst
            && (if limited then 0 else 1) + after.value.tokens + ClampOf(Some(b), l, now)
               == b.tokens + RefillOf(Some(b), l, now)
  {
  }

  lemma {:induction false} TokensConservedFrom(b: Bucket, l: Limits, ts: Times)
    requires Active(l) && b.tokens <= l.burst
    ensures After(Some(b), l, ts).Some?
    ensures Admitted(Some(b), l, ts) + After(Some(b), l, ts).value.tokens + Clamped(Some(b), l, ts)
            == b.tokens + Refilled(Some(b), l, ts)
    decreases ts
  {
    if ts == [] {
    } else {
      StepConserves(b, l, ts[0]);
      TokensConservedFrom(Step(Some(b), l, ts[0]).0.value, l, ts[1..]);
    }
  }

  /** Conservation: every token that was ever in the bucket was admitted, is still
      there, or was clamped away. */
  lemma TokensConserved(l: Limits, ts: Times)
    requires Active(l) && ts != []
    ensures After(None, l, ts).Some?
    ensures Admitted(None, l, ts) + After(None, l, ts).value.tokens + Clamped(None, l, ts)
            == l.burst + Refilled(None, l, ts)
  {
    TokensConservedFrom(Bucket(l.burst - 1, ts[0], 0), l, ts[1..]);
  }

  // ------------------------------------------------------------- potential

  /** Tokens and truncated credit on one scale: the most a bucket can still grant
      at time `t`. */
  function Potential(b: Bucket, l: Limits, t: Clock64): nat
  {
    b.tokens * NS + Credit(b, l, t)
  }

  lemma Mod64Subadditive(a: nat, b: nat)
    ensures (a + b) % U64 <= a % U64 + b
  {
  }

  lemma ProductSplits(x: nat, y: nat, p: nat)
    ensures (x + y) * p == x * p + y * p
  {
  }

  /** Waiting adds at most rate times time, wrap-around included. */
  lemma CreditGrows(b: Bucket, l: Limits, t: Clock64, now: Clock64)
    requires b.updatedNs <= t <= now
    ensures Credit(b, l, now) <= Credit(b, l, t) + (now - t) * l.packetsPerSecond
  {
    var pps := l.packetsPerSecond;
    var x, y := t - b.updatedNs, now - t;
    ProductSplits(x, y, pps);
    assert x % U64 == x && (x + y) % U64 == x + y;
    assert now - b.updatedNs == x + y;
    Mod64Subadditive(x * pps, y * pps);
  }

  /** One call never grants more than the potential allows. */
  lemma StepSpendsPotential(b: Bucket, l: Limits, t: Clock64, now: Clock64)
    requires Active(l) && b.tokens <= l.burst && b.updatedNs <= t <= now
    ensures var (after, limited) := Step(Some(b), l, now);
            (if limited then 0 else NS) + Potential(after.value, l, now)
              <= Potential(b, l, t) + (now - t) * l.packetsPerSecond
  {
    CreditGrows(b, l, t, now);
    StepWithinCredit(b, l, now);
  }

  lemma FreshCredit(tokens: nat, blocked: Clock64, l: Limits, now: Clock64)
    ensures Credit(Bucket(tokens, now, blocked), l, now) == 0
  {
  }

  lemma StepWithinCredit(b: Bucket, l: Limits, now: Clock64)
    requires Active(l) && b.tokens <= l.burst && b.updatedNs <= now
    ensures var (after, limited) := Step(Some(b), l, now);
            (if limited then 0 else NS) + Potential(after.value, l, now) <= b.tokens * NS + Credit(b, l, now)
  {
  }

  /** A call that looks at the tokens leaves at most a full bucket and less than
      one token of credit, its own packet included. */
  lemma EvaluatedStepCapped(bucket: Option<Bucket>, l: Limits, now: Clock64)
    requires Active(l) && Valid(bucket, l, now)
    requires bucket.Some? ==> !Blocked(bucket.value, l, now)
    ensures var (after, limited) := Step(bucket, l, now);
            (if limited then 0 else NS) + Potential(after.value, l, now) < l.burst * NS + NS
  {
  }

  /** The last time of a run that starts after `t`. */
  function LastOf(t: Clock64, ts: Times): Clock64
  {
    if ts == [] then t else ts[|ts| - 1]
  }

  lemma LastOfRest(t: Clock64, ts: Times)
    requires ts != [] && Monotone(ts) && t <= ts[0]
    ensures LastOf(ts[0], ts[1..]) == LastOf(t, ts) && Monotone(ts[1..])
    ensures t <= ts[0] <= LastOf(t, ts) && (|ts| > 1 ==> ts[0] <= ts[1..][0])
  {
  }

  /** Admissions paid for by what there was and by what the rate adds meanwhile. */
  predicate PaidFor(admitted: nat, start: nat, from: Clock64, to: Clock64, rate: nat)
  {
    from <= to && admitted * NS <= start + (to - from) * rate
  }

  /** One call's admission, and what it leaves to pay with, out of what there was and
      what the rate adds. */
  predicate StepPays(granted: nat, middle: nat, start: nat, from: Clock64, to: Clock64, rate: nat)
  {
    from <= to && granted * NS + middle <= start + (to - from) * rate
  }

  lemma NothingToPay(start: nat, at: Clock64, rate: nat)
    ensures PaidFor(0, start, at, at, rate)
  {
  }

  /** Two stretches of time, one after the other. */
  lemma PaidForBoth(granted: nat, more: nat, start: nat, middle: nat, from: Clock64, now: Clock64, to: Clock64,
                    rate: nat)
    requires StepPays(granted, middle, start, from, now, rate)
    requires PaidFor(more, middle, now, to, rate)
    ensures PaidFor(granted + more, start, from, to, rate)
  {
    ProductSplits(now - from, to - now, rate);
    assert to - from == (now - from) + (to - now);
  }

  /** A first call and a run that keeps within what the call left. */
  lemma FirstThenRest(b: Bucket, l: Limits, t: Clock64, now: Clock64, to: Clock64, after: Bucket, limited: bool,
                      more: nat)
    requires Active(l) && b.tokens <= l.burst && b.updatedNs <= t <= now
    requires Step(Some(b), l, now) == (Some(after), limited)
    requires PaidFor(more, Potential(after, l, now), now, to, l.packetsPerSecond)
    ensures PaidFor((if limited then 0 else 1) + more, Potential(b, l, t), t, to, l.packetsPerSecond)
  {
    StepSpendsPotential(b, l, t, now);
    PaidForBoth(if limited then 0 else 1, more, Potential(b, l, t), Potential(after, l, now), t, now, to,
                l.packetsPerSecond);
  }

  /** A run never admits more than the potential it starts from and the rate allow. */
  lemma {:induction false} RunSpendsPotential(b: Bucket, l: Limits, t: Clock64, ts: Times)
    requires Active(l) && Monotone(ts) && b.tokens <= l.burst && b.updatedNs <= t
    requires ts != [] ==> t <= ts[0]
    ensures PaidFor(Admitted(Some(b), l, ts), Potential(b, l, t), t, LastOf(t, ts), l.packetsPerSecond)
    decreases ts
  {
    if ts == [] {
      NothingToPay(Potential(b, l, t), t, l.packetsPerSecond);
    } else {
      var (after, limited) := Step(Some(b), l, ts[0]);
      LastOfRest(t, ts);
      StepKeepsValid(Some(b), l, t, ts[0]);
      RunSpendsPotential(after.value, l, ts[0], ts[1..]);
      FirstThenRest(b, l, t, ts[0], LastOf(t, ts), after.value, limited, Admitted(after, l, ts[1..]));
    }
  }

  /** While the blocking window is open nothing is admitted and nothing changes. */
  lemma {:induction false} BlockedRunFrozen(b: Bucket, l: Limits, ts: Times)
    requires Active(l) && l.blockNs > 0
    requires forall i :: 0 <= i < |ts| ==> ts[i] < b.blockedUntilNs
    ensures After(Some(b), l, ts) == Some(b) && Admitted(Some(b), l, ts) == 0
    decreases ts
  {
    if ts == [] {
    } else {
      assert Step(Some(b), l, ts[0]) == (Some(b), true);
      BlockedRunFrozen(b, l, ts[1..]);
    }
  }

  /** A call that left the bucket within a cap, and the rest of the run. */
  lemma CallAndRest(after: Bucket, granted: nat, l: Limits, ts: Times, cap: nat)
    requires Active(l) && Monotone(ts) && ts != []
    requires after.tokens <= l.burst && after.updatedNs <= ts[0]
    requires granted * NS + Potential(after, l, ts[0]) <= cap
    ensures (granted + Admitted(Some(after), l, ts[1..])) * NS <= cap + (ts[|ts| - 1] - ts[0]) * l.packetsPerSecond
  {
    LastOfRest(ts[0], ts);
    RunSpendsPotential(after, l, ts[0], ts[1..]);
  }

  /** Since creation: at most the burst plus what the rate allows, even if the
      64-bit product wraps. */
  lemma AdmittedSinceCreation(l: Limits, ts: Times)
    requires Active(l) && Monotone(ts) && ts != []
    ensures Admitted(None, l, ts) * NS <= l.burst * NS + (ts[|ts| - 1] - ts[0]) * l.packetsPerSecond
  {
    FreshCredit(l.burst - 1, 0, l, ts[0]);
    CallAndRest(Bucket(l.burst - 1, ts[0], 0), 1, l, ts, l.burst * NS);
  }

  lemma WholeTokens(admitted: nat, burst: nat, width: nat)
    requires admitted * NS < burst * NS + NS + width
    ensures admitted <= burst + (width + NS - 1) / NS <= burst + 1 + width / NS
  {
  }

  lemma WindowFromEvaluated(bucket: Option<Bucket>, l: Limits, ts: Times)
    requires Active(l) && Monotone(ts) && ts != [] && Valid(bucket, l, ts[0])
    requires bucket.Some? ==> !Blocked(bucket.value, l, ts[0])
    ensures Admitted(bucket, l, ts) * NS < l.burst * NS + NS + (ts[|ts| - 1] - ts[0]) * l.packetsPerSecond
  {
    var (after, limited) := Step(bucket, l, ts[0]);
    EvaluatedStepCapped(bucket, l, ts[0]);
    StepKeepsValid(bucket, l, ts[0], ts[0]);
    CallAndRest(after.value, if limited then 0 else 1, l, ts, l.burst * NS + NS - 1);
  }

  lemma WiderStillHolds(admitted: nat, burst: nat, width: nat, wider: nat, rate: nat)
    requires admitted * NS < burst * NS + NS + width * rate && width <= wider
    ensures admitted * NS < burst * NS + NS + wider * rate
  {
    WiderWindow(width, wider, rate);
  }

  /** The same in nanoseconds, over a window that may begin inside a block. */
  lemma {:induction false} AdmittedOverWindow(bucket: Option<Bucket>, l: Limits, ts: Times)
    requires Active(l) && Monotone(ts) && ts != [] && Valid(bucket, l, ts[0])
    ensures Admitted(bucket, l, ts) * NS < l.burst * NS + NS + (ts[|ts| - 1] - ts[0]) * l.packetsPerSecond
    decreases |ts|
  {
    var from, to, rest := ts[0], ts[|ts| - 1], ts[1..];
    if bucket.None? || !Blocked(bucket.value, l, from) {
      WindowFromEvaluated(bucket, l, ts);
    } else {
      assert Step(bucket, l, from) == (bucket, true);
      if rest == [] {
        WiderStillHolds(0, l.burst, 0, to - from, l.packetsPerSecond);
      } else {
        AdmittedOverWindow(bucket, l, rest);
        WiderStillHolds(Admitted(bucket, l, rest), l.burst, to - rest[0], to - from, l.packetsPerSecond);
      }
    }
  }

  /** In any window, whatever came before it: at most the burst, one more, and what
      the rate allows over the window's length. */
  lemma AdmittedInWindow(bucket: Option<Bucket>, l: Limits, ts: Times)
    requires Active(l) && Monotone(ts) && ts != [] && Valid(bucket, l, ts[0])
    ensures var width := (ts[|ts| - 1] - ts[0]) * l.packetsPerSecond;
            Admitted(bucket, l, ts) <= l.burst + (width + NS - 1) / NS <= l.burst + 1 + width / NS
  {
    LastOfRest(ts[0], ts);
    var span: nat := ts[|ts| - 1] - ts[0];
    AdmittedOverWindow(bucket, l, ts);
    WholeTokensOver(Admitted(bucket, l, ts), l.burst, span, l.packetsPerSecond);
  }

  lemma WholeTokensOver(admitted: nat, burst: nat, span: nat, rate: nat)
    requires admitted * NS < burst * NS + NS + span * rate
    ensures var width := span * rate;
            admitted <= burst + (width + NS - 1) / NS <= burst + 1 + width / NS
  {
    WholeTokens(admitted, burst, span * rate);
  }

  lemma WiderWindow(a: nat, b: nat, p: nat)
    requires a <= b
    ensures a * p <= b * p
  {
  }

  // -------------------------------------------------------- refill is paid out

  /** Tokens refilled are paid for by the time the refill mark has moved. */
  predicate NeverMore(refilled: nat, moved: nat, rate: nat)
  {
    refilled * NS <= moved * rate
  }

  /** They are at least half of what that time is worth. */
  predicate AtLeastHalf(refilled: nat, moved: nat, rate: nat)
  {
    moved * rate <= 2 * NS * refilled
  }

  lemma NeverMoreAdds(r: nat, m: nat, r': nat, m': nat, rate: nat)
    requires NeverMore(r, m, rate) && NeverMore(r', m', rate)
    ensures NeverMore(r + r', m + m', rate)
  {
    ProductSplits(m, m', rate);
  }

  lemma AtLeastHalfAdds(r: nat, m: nat, r': nat, m': nat, rate: nat)
    requires AtLeastHalf(r, m, rate) && AtLeastHalf(r', m', rate)
    ensures AtLeastHalf(r + r', m + m', rate)
  {
    ProductSplits(m, m', rate);
  }

  /** Time short enough for the product with the rate to fit 64 bits. */
  predicate NoWrap(from: Clock64, to: Clock64, rate: nat)
  {
    from <= to && (to - from) * rate < U64
  }

  /** The call refills nothing, or its product fits: the time since the refill mark,
      not since the run began. */
  predicate CallFits(bucket: Option<Bucket>, l: Limits, now: Clock64)
  {
    RefillOf(bucket, l, now) > 0 ==> NoWrap(bucket.value.updatedNs, now, l.packetsPerSecond)
  }

  /** No call of the run refills from a product that wrapped. */
  predicate FitsThroughout(bucket: Option<Bucket>, l: Limits, ts: Times)
    decreases ts
  {
    ts == [] || (CallFits(bucket, l, ts[0]) && FitsThroughout(Step(bucket, l, ts[0]).0, l, ts[1..]))
  }

  /** A truncated product refills no more than the product, and at least half of it
      exactly when nothing was cut off. */
  lemma TruncatedProduct(product: nat)
    ensures var refill := product % U64 / NS;
            && refill * NS <= product
            && (refill > 0 ==> (product <= 2 * NS * refill <==> product < U64))
  {
    var credit := product % U64;
    assert product == product / U64 * U64 + credit;
    if product >= U64 {
      assert product / U64 >= 1;
    }
  }

  /** How far a call moves the refill mark: to its own time if it refills, else nowhere. */
  lemma MarkMoves(b: Bucket, l: Limits, now: Clock64, after: Option<Bucket>)
    requires Active(l) && b.updatedNs <= now && after == Step(Some(b), l, now).0
    ensures after.Some?
    ensures after.value.updatedNs == if RefillOf(Some(b), l, now) > 0 then now else b.updatedNs
  {
  }

  /** What one call refills against the time its refill mark moves: never more than that
      is worth, and at least half exactly when the call does not refill from a product
      that wrapped. */
  lemma RefillKeepsPace(b: Bucket, l: Limits, now: Clock64, mark: Clock64)
    requires Active(l) && b.updatedNs <= now && mark == Step(Some(b), l, now).0.value.updatedNs
    ensures b.updatedNs <= mark <= now
    ensures NeverMore(RefillOf(Some(b), l, now), mark - b.updatedNs, l.packetsPerSecond)
    ensures AtLeastHalf(RefillOf(Some(b), l, now), mark - b.updatedNs, l.packetsPerSecond) <==>
            CallFits(Some(b), l, now)
  {
    MarkMoves(b, l, now, Step(Some(b), l, now).0);
    if RefillOf(Some(b), l, now) > 0 {
      assert (now - b.updatedNs) % U64 == now - b.updatedNs;
      TruncatedProduct((now - b.updatedNs) * l.packetsPerSecond);
    } else {
      assert 0 * l.packetsPerSecond == 0;
    }
  }

  /** The rest of a run starts no earlier than a refill mark that has not passed it. */
  lemma LaterRun(start: Clock64, mark: Clock64, now: Clock64, ts: Times)
    requires ts != [] && Monotone(ts) && now == ts[0] && start <= mark <= now
    ensures ts[1..] != [] ==> mark <= ts[1..][0]
    ensures mark <= LastOf(mark, ts[1..]) <= LastOf(start, ts)
  {
  }

  /** The refill mark after a run that starts from an existing bucket. */
  function MarkAfter(b: Bucket, l: Limits, ts: Times): Clock64
    requires Active(l)
    decreases ts
  {
    if ts == [] then b.updatedNs else MarkAfter(Step(Some(b), l, ts[0]).0.value, l, ts[1..])
  }

  lemma {:induction false} MarkAfterRun(b: Bucket, l: Limits, ts: Times)
    requires Active(l) && Monotone(ts) && (ts != [] ==> b.updatedNs <= ts[0])
    ensures After(Some(b), l, ts).Some? && After(Some(b), l, ts).value.updatedNs == MarkAfter(b, l, ts) >= b.updatedNs
    decreases ts
  {
    if ts == [] {
    } else {
      var after := Step(Some(b), l, ts[0]).0;
      MarkMoves(b, l, ts[0], after);
      LaterRun(b.updatedNs, after.value.updatedNs, ts[0], ts);
      MarkAfterRun(after.value, l, ts[1..]);
    }
  }

  /** One step of a run, as the two bounds need it: the rest starts at the new mark. */
  lemma PaceStep(b: Bucket, l: Limits, ts: Times, after: Bucket)
    requires Active(l) && Monotone(ts) && ts != [] && b.updatedNs <= ts[0] && Some(after) == Step(Some(b), l, ts[0]).0
    ensures b.updatedNs <= after.updatedNs <= MarkAfter(b, l, ts) == MarkAfter(after, l, ts[1..])
    ensures ts[1..] != [] ==> after.updatedNs <= ts[1..][0]
    ensures Refilled(Some(b), l, ts) == RefillOf(Some(b), l, ts[0]) + Refilled(Some(after), l, ts[1..])
  {
    MarkMoves(b, l, ts[0], Some(after));
    LaterRun(b.updatedNs, after.updatedNs, ts[0], ts);
    MarkAfterRun(after, l, ts[1..]);
  }

  /** From an existing bucket: refills are paid for by the refill mark, wrap-around
      included. */
  lemma {:induction false} NeverRefillsMore(b: Bucket, l: Limits, ts: Times)
    requires Active(l) && Monotone(ts) && (ts != [] ==> b.updatedNs <= ts[0])
    ensures b.updatedNs <= MarkAfter(b, l, ts)
    ensures NeverMore(Refilled(Some(b), l, ts), MarkAfter(b, l, ts) - b.updatedNs, l.packetsPerSecond)
    decreases ts
  {
    if ts == [] {
      assert 0 * l.packetsPerSecond == 0;
    } else {
      var after := Step(Some(b), l, ts[0]).0.value;
      PaceStep(b, l, ts, after);
      RefillKeepsPace(b, l, ts[0], after.updatedNs);
      NeverRefillsMore(after, l, ts[1..]);
      NeverMoreAdds(RefillOf(Some(b), l, ts[0]), after.updatedNs - b.updatedNs, Refilled(Some(after), l, ts[1..]),
                    MarkAfter(b, l, ts) - after.updatedNs, l.packetsPerSecond);
    }
  }

  /** And they pay out at least half if no refill came from a wrapped product. */
  lemma {:induction false} RefillsAtLeastHalf(b: Bucket, l: Limits, ts: Times)
    requires Active(l) && Monotone(ts) && (ts != [] ==> b.updatedNs <= ts[0]) && FitsThroughout(Some(b), l, ts)
    ensures b.updatedNs <= MarkAfter(b, l, ts)
    ensures AtLeastHalf(Refilled(Some(b), l, ts), MarkAfter(b, l, ts) - b.updatedNs, l.packetsPerSecond)
    decreases ts
  {
    if ts == [] {
      assert 0 * l.packetsPerSecond == 0;
    } else {
      var after := Step(Some(b), l, ts[0]).0.value;
      PaceStep(b, l, ts, after);
      RefillKeepsPace(b, l, ts[0], after.updatedNs);
      RefillsAtLeastHalf(after, l, ts[1..]);
      AtLeastHalfAdds(RefillOf(Some(b), l, ts[0]), after.updatedNs - b.updatedNs, Refilled(Some(after), l, ts[1..]),
                      MarkAfter(b, l, ts) - after.updatedNs, l.packetsPerSecond);
    }
  }

  /** Over every run the rate refills at most what the time up to the last refill is
      worth, even if products wrap; and at least half of that, if no refill came from a
      product that wrapped, however long the run. */
  lemma RefillsKeepPace(l: Limits, ts: Times)
    requires Active(l) && Monotone(ts) && ts != []
    ensures After(None, l, ts).Some? && ts[0] <= After(None, l, ts).value.updatedNs
    ensures NeverMore(Refilled(None, l, ts), After(None, l, ts).value.updatedNs - ts[0], l.packetsPerSecond)
    ensures FitsThroughout(None, l, ts) ==>
              AtLeastHalf(Refilled(None, l, ts), After(None, l, ts).value.updatedNs - ts[0], l.packetsPerSecond)
  {
    var created := Bucket(l.burst - 1, ts[0], 0);
    LastOfRest(ts[0], ts);
    MarkAfterRun(created, l, ts[1..]);
    NeverRefillsMore(created, l, ts[1..]);
    if FitsThroughout(None, l, ts) {
      RefillsAtLeastHalf(created, l, ts[1..]);
    }
  }

  lemma ShorterFits(from: Clock64, later: Clock64, sooner: Clock64, to: Clock64, rate: nat)
    requires from <= later <= sooner <= to && NoWrap(from, to, rate)
    ensures NoWrap(later, sooner, rate)
  {
    WiderWindow(sooner - later, to - from, rate);
  }

  lemma {:induction false} ShortRunFitsFrom(b: Bucket, l: Limits, ts: Times)
    requires Active(l) && Monotone(ts) && (ts != [] ==> b.updatedNs <= ts[0])
    requires NoWrap(b.updatedNs, LastOf(b.updatedNs, ts), l.packetsPerSecond)
    ensures FitsThroughout(Some(b), l, ts)
    decreases ts
  {
    if ts == [] {
    } else {
      var now, to, start := ts[0], LastOf(b.updatedNs, ts), b.updatedNs;
      var after := Step(Some(b), l, now).0;
      LastOfRest(start, ts);
      MarkMoves(b, l, now, after);
      var mark := after.value.updatedNs;
      LaterRun(start, mark, now, ts);
      ShorterFits(start, start, now, to, l.packetsPerSecond);
      ShorterFits(start, mark, LastOf(mark, ts[1..]), to, l.packetsPerSecond);
      ShortRunFitsFrom(after.value, l, ts[1..]);
    }
  }

  /** A run short enough as a whole fits throughout. */
  lemma ShortRunsKeepPace(l: Limits, ts: Times)
    requires Active(l) && Monotone(ts) && ts != []
    requires (ts[|ts| - 1] - ts[0]) * l.packetsPerSecond < U64
    ensures After(None, l, ts).Some? && ts[0] <= After(None, l, ts).value.updatedNs
    ensures NeverMore(Refilled(None, l, ts), After(None, l, ts).value.updatedNs - ts[0], l.packetsPerSecond)
    ensures AtLeastHalf(Refilled(None, l, ts), After(None, l, ts).value.updatedNs - ts[0], l.packetsPerSecond)
  {
    LastOfRest(ts[0], ts);
    RefillsKeepPace(l, ts);
    ShortRunFitsFrom(Bucket(l.burst - 1, ts[0], 0), l, ts[1..]);
  }

  // ------------------------------------------------- tokens are handed out

  /** A bucket that is not blocked turns a packet away exactly when it holds no token and
      the time since its refill mark is not worth one; it keeps what it has then. */
  lemma LimitedIffSpent(b: Bucket, l: Limits, now: Clock64)
    requires Active(l) && Valid(Some(b), l, now) && !Blocked(b, l, now)
    ensures var (after, limited) := Step(Some(b), l, now);
            && (limited <==> b.tokens == 0 && (now - b.updatedNs) * l.packetsPerSecond % U64 < NS)
            && (limited ==> after.value.tokens == 0 && after.value.updatedNs == b.updatedNs)
  {
    assert (now - b.updatedNs) % U64 == now - b.updatedNs;
  }

  /** Tokens that are there are handed out, one a call, whatever the clock reads. */
  lemma {:induction false} TokensAreHandedOut(b: Bucket, l: Limits, ts: Times)
    requires Active(l) && |ts| <= b.tokens <= l.burst && b.blockedUntilNs == 0
    ensures Admitted(Some(b), l, ts) == |ts|
    decreases ts
  {
    if ts == [] {
    } else {
      TokensAreHandedOut(Step(Some(b), l, ts[0]).0.value, l, ts[1..]);
    }
  }

  /** The first calls after creation are all admitted, up to the burst. */
  lemma FirstBurstAdmitted(l: Limits, ts: Times)
    requires Active(l) && |ts| <= l.burst
    ensures Admitted(None, l, ts) == |ts|
  {
    if ts == [] {
    } else {
      TokensAreHandedOut(Bucket(l.burst - 1, ts[0], 0), l, ts[1..]);
    }
  }

  /** Long enough for the rate to add a token, and not so long that the product wraps. */
  predicate WorthAToken(from: Clock64, to: Clock64, rate: nat)
  {
    NoWrap(from, to, rate) && (to - from) * rate >= NS
  }

  /** Calls that keep to the rate are all admitted, however many there are. */
  lemma {:induction false} SpacedAdmittedFrom(b: Bucket, l: Limits, ts: Times)
    requires Active(l) && b.tokens <= l.burst && b.blockedUntilNs == 0
    requires ts != [] ==> WorthAToken(b.updatedNs, ts[0], l.packetsPerSecond)
    requires forall i :: 0 < i < |ts| ==> WorthAToken(ts[i - 1], ts[i], l.packetsPerSecond)
    ensures Admitted(Some(b), l, ts) == |ts|
    decreases ts
  {
    if ts == [] {
    } else {
      LimitedIffSpent(b, l, ts[0]);
      assert Credit(b, l, ts[0]) == (ts[0] - b.updatedNs) * l.packetsPerSecond;
      SpacedAdmittedFrom(Step(Some(b), l, ts[0]).0.value, l, ts[1..]);
    }
  }

  lemma SpacedCallsAdmitted(l: Limits, ts: Times)
    requires Active(l)
    requires forall i :: 0 < i < |ts| ==> WorthAToken(ts[i - 1], ts[i], l.packetsPerSecond)
    ensures Admitted(None, l, ts) == |ts|
  {
    if ts == [] {
    } else {
      SpacedAdmittedFrom(Bucket(l.burst - 1, ts[0], 0), l, ts[1..]);
    }
  }

  /** The call finds the bucket full, or creates it. */
  predicate FullAt(bucket: Option<Bucket>, l: Limits, now: Clock64)
  {
    bucket.None? || (!Blocked(bucket.value, l, now) && bucket.value.tokens + RefillOf(bucket, l, now) >= l.burst)
  }

  /** The last call of a run that finds the bucket full: nothing is clamped away later. */
  lemma {:induction false} LastFull(bucket: Option<Bucket>, l: Limits, ts: Times) returns (j: nat)
    requires Active(l) && ts != [] && (FullAt(bucket, l, ts[0]) || Clamped(bucket, l, ts) > 0)
    ensures j < |ts| && FullAt(After(bucket, l, ts[..j]), l, ts[j])
    ensures Clamped(After(bucket, l, ts[..j + 1]), l, ts[j + 1..]) == 0
    decreases ts
  {
    var after, rest := Step(bucket, l, ts[0]).0, ts[1..];
    if Clamped(after, l, rest) == 0 {
      j := 0;
      assert ts[..1] == [ts[0]] && [ts[0]][1..] == [];
    } else {
      var k := LastFull(after, l, rest);
      j := k + 1;
      assert ts[..j][1..] == rest[..k] && ts[..j + 1][1..] == rest[..k + 1];
      assert ts[j..] == rest[k..] && ts[j + 1..] == rest[k + 1..];
    }
  }

  /** A bucket that blocks is empty. */
  ghost predicate BlockedIsEmpty(bucket: Option<Bucket>, l: Limits, now: Clock64)
  {
    bucket.Some? && Blocked(bucket.value, l, now) ==> bucket.value.tokens == 0
  }

  lemma StepKeepsBlockedEmpty(bucket: Option<Bucket>, l: Limits, now: Clock64, later: Clock64)
    requires Active(l) && Valid(bucket, l, now) && BlockedIsEmpty(bucket, l, now) && now <= later
    ensures Valid(Step(bucket, l, now).0, l, later) && BlockedIsEmpty(Step(bucket, l, now).0, l, later)
    ensures Step(bucket, l, now).1 ==> Step(bucket, l, now).0.value.tokens == 0
  {
  }

  lemma {:induction false} LastCallEmpty(bucket: Option<Bucket>, l: Limits, ts: Times)
    requires Active(l) && Monotone(ts) && ts != [] && Valid(bucket, l, ts[0]) && BlockedIsEmpty(bucket, l, ts[0])
    requires Step(After(bucket, l, ts[..|ts| - 1]), l, ts[|ts| - 1]).1
    ensures After(bucket, l, ts).Some? && After(bucket, l, ts).value.tokens == 0
    decreases ts
  {
    var after, rest := Step(bucket, l, ts[0]).0, ts[1..];
    if rest == [] {
      assert ts[..0] == [];
      StepKeepsBlockedEmpty(bucket, l, ts[0], ts[0]);
    } else {
      StepKeepsBlockedEmpty(bucket, l, ts[0], rest[0]);
      assert ts[..|ts| - 1][1..] == rest[..|rest| - 1];
      LastCallEmpty(after, l, rest);
    }
  }

  lemma {:induction false} AfterSplits(bucket: Option<Bucket>, l: Limits, ts: Times, j: nat)
    requires j <= |ts|
    ensures After(bucket, l, ts) == After(After(bucket, l, ts[..j]), l, ts[j..])
    decreases ts
  {
    if j == 0 {
      assert ts[0..] == ts;
    } else {
      AfterSplits(Step(bucket, l, ts[0]).0, l, ts[1..], j - 1);
      assert ts[..j][1..] == ts[1..][..j - 1] && ts[j..] == ts[1..][j - 1..];
    }
  }

  predicate WithinBurst(bucket: Option<Bucket>, l: Limits)
  {
    bucket.Some? ==> bucket.value.tokens <= l.burst
  }

  lemma {:induction false} RunStaysWithinBurst(bucket: Option<Bucket>, l: Limits, ts: Times)
    requires Active(l) && WithinBurst(bucket, l)
    ensures WithinBurst(After(bucket, l, ts), l)
    decreases ts
  {
    if ts == [] {
    } else {
      RunStaysWithinBurst(Step(bucket, l, ts[0]).0, l, ts[1..]);
    }
  }

  lemma FullIsServed(full: Option<Bucket>, l: Limits, now: Clock64)
    requires Active(l) && FullAt(full, l, now) && WithinBurst(full, l)
    ensures var (after, limited) := Step(full, l, now);
            !limited && after.Some? && after.value.tokens == l.burst - 1
  {
  }

  /** Why a packet is turned away: since some call that found the bucket full, a whole
      burst and everything refilled meanwhile was admitted. */
  lemma LimitedMeansSpent(l: Limits, ts: Times) returns (j: nat)
    requires Active(l) && Monotone(ts) && ts != []
    requires Step(After(None, l, ts[..|ts| - 1]), l, ts[|ts| - 1]).1
    ensures j < |ts| && FullAt(After(None, l, ts[..j]), l, ts[j])
    ensures Admitted(After(None, l, ts[..j]), l, ts[j..]) ==
            l.burst + Refilled(After(None, l, ts[..j + 1]), l, ts[j + 1..])
  {
    j := LastFull(None, l, ts);
    LastCallEmpty(None, l, ts);
    var full := After(None, l, ts[..j]);
    var after := Step(full, l, ts[j]).0;
    AfterSplits(None, l, ts, j);
    AfterSplits(None, l, ts[..j + 1], j);
    assert ts[..j + 1][..j] == ts[..j] && ts[..j + 1][j..] == [ts[j]];
    assert ts[j..][0] == ts[j] && ts[j..][1..] == ts[j + 1..];
    assert After(full, l, [ts[j]]) == after;
    RunStaysWithinBurst(None, l, ts[..j]);
    FullIsServed(full, l, ts[j]);
    TokensConservedFrom(after.value, l, ts[j + 1..]);
  }

  // -------------------------------------------------------- blocking window

  /** The call that finds the bucket empty opens the window. */
  predicate Empties(bucket: Option<Bucket>, l: Limits, now: Clock64)
  {
    && Active(l) && l.blockNs > 0 && bucket.Some? && !Blocked(bucket.value, l, now)
    && Step(bucket, l, now).1
  }

  /** The window opened at `now` is open at every time before `now + block` exactly
      when that sum fits 64 bits; if it wraps, the window is never open at all. */
  lemma BlockHonoredIff(bucket: Option<Bucket>, l: Limits, now: Clock64)
    requires Empties(bucket, l, now)
    ensures var b := Step(bucket, l, now).0.value;
            && (now + l.blockNs < U64 <==> forall t: Clock64 :: now <= t < now + l.blockNs ==> Blocked(b, l, t))
            && (now + l.blockNs >= U64 ==> forall t: Clock64 :: t >= now ==> !Blocked(b, l, t))
  {
    var b := Step(bucket, l, now).0.value;
    if now + l.blockNs >= U64 {
      assert b.blockedUntilNs == now + l.blockNs - U64;
      assert !Blocked(b, l, now);
    }
  }

  /** After the bucket empties, no call before `now + block` admits anything, and
      none of those calls moves the end of the window. */
  lemma EmptiedStaysShut(bucket: Option<Bucket>, l: Limits, now: Clock64, ts: Times)
    requires Empties(bucket, l, now) && now + l.blockNs < U64
    requires forall i :: 0 <= i < |ts| ==> now <= ts[i] < now + l.blockNs
    ensures var b := Step(bucket, l, now).0;
            After(b, l, ts) == b && Admitted(b, l, ts) == 0
  {
    BlockedRunFrozen(Step(bucket, l, now).0.value, l, ts);
  }
}
