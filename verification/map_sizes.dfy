/** Map capacities: 32-bit sizes that grow by doubling and rounding to powers of two. */
module MapSizes {

  import opened Bits
  import opened Policy
  import opened Results

  const U32_LIMIT: nat := 0x1_0000_0000

  datatype XdpMapSizes = XdpMapSizes(
    rules: U32, geo: U32, trusted: U32, countries: U32, rate: U32, customRates: U32, tempBans: U32)

  predicate IsPow2(n: nat)
  {
    exists k: nat :: k <= n && n == Pow2(k)
  }

  lemma {:induction false} Pow2Exceeds(k: nat)
    ensures k < Pow2(k)
  {
    if k == 0 {
    } else {
      Pow2Exceeds(k - 1);
    }
  }

  lemma {:induction false} Pow2Monotone(a: nat, b: nat)
    requires a <= b
    ensures Pow2(a) <= Pow2(b)
    decreases b
  {
    if a == b {
    } else {
      Pow2Monotone(a, b - 1);
    }
  }

  /** Exponent of the smallest power of two that is at least `n`. */
  function CeilLog2(n: nat): (k: nat)
    requires n >= 1
    ensures n <= Pow2(k) && (k > 0 ==> Pow2(k - 1) < n)
  {
    if n == 1 then 0 else
      var k := CeilLog2((n + 1) / 2);
      k + 1
  }

  function Max(a: nat, b: nat): nat
  {
    if a > b then a else b
  }

  /** The capacity a map grows to, or None when it does not fit 32 bits. */
  function ExpandedCapacity(current: U32, required: U32): Option<U32>
  {
    if required <= current then Some(current)
    else
      var target := Max(Max(2 * current, required), 1);
      var rounded := Pow2(CeilLog2(target));
      if rounded < U32_LIMIT then Some(rounded) else None
  }

  lemma TwoTo32()
    ensures Pow2(32) == U32_LIMIT && Pow2(31) == 0x8000_0000
  {
    assert Pow2(8) == 256 by { assert Pow2(4) == 16; }
    assert Pow2(16) == 65536 by { assert Pow2(12) == 4096; }
    assert Pow2(24) == 16777216 by { assert Pow2(20) == 1048576; }
    assert Pow2(28) == 268435456;
  }

  /** A grown capacity is a power of two, at least what is required and twice the
      old one, and below twice the larger of these: it is the tightest such power.
      Growth fails exactly when that larger number exceeds 2^31. */
  lemma GrowthIsTight(current: U32, required: U32)
    requires required > current
    ensures var r := ExpandedCapacity(current, required);
            var target := Max(2 * current, required);
            && (r.Some? <==> target <= 0x8000_0000)
            && (r.Some? ==> IsPow2(r.value) && target <= r.value < 2 * target)
  {
    var target := Max(2 * current, required);
    var k := CeilLog2(target);
    TwoTo32();
    Pow2Exceeds(k);
    if k <= 31 {
      Pow2Monotone(k, 31);
    } else {
      Pow2Monotone(31, k - 1);
      Pow2Monotone(32, k);
    }
    if k > 0 {
      assert Pow2(k) == 2 * Pow2(k - 1);
    }
  }

  predicate Fits(required: XdpMapSizes, configured: XdpMapSizes)
  {
    && required.rules <= configured.rules
    && required.trusted <= configured.trusted
    && required.geo <= configured.geo
    && required.countries <= configured.countries
    && required.customRates <= configured.customRates
    && required.tempBans <= configured.tempBans
  }

  datatype Resize = Keep | Grow(sizes: XdpMapSizes) | Overflow

  /** The bucket map keeps its size; a change in any other proposes a resize. */
  function ResizedMapSizes(current: XdpMapSizes, required: XdpMapSizes): Resize
  {
    var rules := ExpandedCapacity(current.rules, required.rules);
    var geo := ExpandedCapacity(current.geo, required.geo);
    var trusted := ExpandedCapacity(current.trusted, required.trusted);
    var countries := ExpandedCapacity(current.countries, required.countries);
    var customRates := ExpandedCapacity(current.customRates, required.customRates);
    var tempBans := ExpandedCapacity(current.tempBans, required.tempBans);
    if rules.None? || geo.None? || trusted.None? || countries.None? || customRates.None? || tempBans.None? then Overflow
    else
      var resized := XdpMapSizes(rules.value, geo.value, trusted.value, countries.value, current.rate,
                                 customRates.value, tempBans.value);
      if resized != current then Grow(resized) else Keep
  }

  /** A map that is large enough keeps its size; another gets the smallest power of two
      that is what is required, and twice the old size, at least. */
  predicate GrownTo(current: U32, required: U32, size: U32)
  {
    if required <= current then size == current
    else IsPow2(size) && Max(2 * current, required) <= size < 2 * Max(2 * current, required)
  }

  predicate TooLarge(current: U32, required: U32)
  {
    required > current && Max(2 * current, required) > 0x8000_0000
  }

  /** A resize is proposed exactly when the capacity check would fail, unless some map
      cannot grow far enough; the proposed sizes pass the check, each map on its own. */
  lemma ResizeIffShort(current: XdpMapSizes, required: XdpMapSizes)
    ensures ResizedMapSizes(current, required).Keep? <==> Fits(required, current)
    ensures ResizedMapSizes(current, required).Overflow? <==>
            || TooLarge(current.rules, required.rules) || TooLarge(current.geo, required.geo)
            || TooLarge(current.trusted, required.trusted) || TooLarge(current.countries, required.countries)
            || TooLarge(current.customRates, required.customRates) || TooLarge(current.tempBans, required.tempBans)
    ensures ResizedMapSizes(current, required).Grow? ==>
              var sizes := ResizedMapSizes(current, required).sizes;
              && !Fits(required, current) && Fits(required, sizes) && sizes.rate == current.rate
              && GrownTo(current.rules, required.rules, sizes.rules)
              && GrownTo(current.geo, required.geo, sizes.geo)
              && GrownTo(current.trusted, required.trusted, sizes.trusted)
              && GrownTo(current.countries, required.countries, sizes.countries)
              && GrownTo(current.customRates, required.customRates, sizes.customRates)
              && GrownTo(current.tempBans, required.tempBans, sizes.tempBans)
  {
    GrowsOnlyWhenShort(current.rules, required.rules);
    GrowsOnlyWhenShort(current.geo, required.geo);
    GrowsOnlyWhenShort(current.trusted, required.trusted);
    GrowsOnlyWhenShort(current.countries, required.countries);
    GrowsOnlyWhenShort(current.customRates, required.customRates);
    GrowsOnlyWhenShort(current.tempBans, required.tempBans);
  }

  lemma GrowsOnlyWhenShort(current: U32, required: U32)
    ensures var r := ExpandedCapacity(current, required);
            && (r == Some(current) <==> required <= current)
            && (r.None? <==> TooLarge(current, required))
            && (r.Some? ==> required <= r.value && GrownTo(current, required, r.value))
  {
    if required > current {
      GrowthIsTight(current, required);
    }
  }

  // ------------------------------------------------------------- whole runs

  /** Capacity of one map after a run of requirements; a failed growth leaves it. */
  function CapacityAfter(current: U32, run: seq<U32>): U32
    decreases run
  {
    if run == [] then current
    else CapacityAfter(ExpandedCapacity(current, run[0]).GetOr(current), run[1..])
  }

  function Growths(current: U32, run: seq<U32>): nat
    decreases run
  {
    if run == [] then 0
    else
      var next := ExpandedCapacity(current, run[0]).GetOr(current);
      (if next != current then 1 else 0) + Growths(next, run[1..])
  }

  lemma {:induction false} GrowthDoubles(current: U32, run: seq<U32>)
    requires current > 0
    ensures current * Pow2(Growths(current, run)) <= CapacityAfter(current, run)
    decreases run
  {
    if run == [] {
    } else {
      var next := ExpandedCapacity(current, run[0]).GetOr(current);
      GrowthDoubles(next, run[1..]);
      if next != current {
        GrowthIsTight(current, run[0]);
        DoublingStep(current, next, Growths(next, run[1..]));
      }
    }
  }

  lemma DoublingStep(current: nat, next: nat, n: nat)
    requires 2 * current <= next
    ensures current * Pow2(n + 1) <= next * Pow2(n)
  {
  }

  lemma ScaleLe(a: nat, b: nat, p: nat)
    requires a <= b
    ensures a * p <= b * p
  {
  }

  /** Over any run of policies a map that starts non-empty grows at most 31 times. */
  lemma AtMost31Growths(current: U32, run: seq<U32>)
    requires current > 0
    ensures Growths(current, run) <= 31
  {
    var n := Growths(current, run);
    GrowthDoubles(current, run);
    TwoTo32();
    ScaleLe(1, current, Pow2(n));
    if n >= 32 {
      Pow2Monotone(32, n);
    }
  }
}
