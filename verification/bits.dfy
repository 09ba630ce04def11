/** Bit strings, most significant bit first: the order in which the kernel's
    longest-prefix trie compares key bytes. */
module Bits {

  type Bits = seq<bool>

  function Zeros(n: nat): (z: Bits)
    ensures |z| == n
  {
    seq(n, _ => false)
  }

  /** The low `width` bits of `value`, most significant first. */
  function ToBits(value: nat, width: nat): (b: Bits)
    ensures |b| == width
  {
    if width == 0 then [] else ToBits(value / 2, width - 1) + [value % 2 == 1]
  }

  function ToNat(b: Bits): nat
  {
    if b == [] then 0 else 2 * ToNat(b[..|b| - 1]) + (if b[|b| - 1] then 1 else 0)
  }

  function Pow2(n: nat): (p: nat)
    ensures p > 0
  {
    if n == 0 then 1 else 2 * Pow2(n - 1)
  }

  lemma {:induction false} ToNatOfToBits(value: nat, width: nat)
    requires value < Pow2(width)
    ensures ToNat(ToBits(value, width)) == value
  {
    if width == 0 {
    } else {
      ToNatOfToBits(value / 2, width - 1);
      var b := ToBits(value, width);
      assert b[..|b| - 1] == ToBits(value / 2, width - 1);
    }
  }

  /** Values that fit are told apart by their bits. */
  lemma ToBitsInjective(x: nat, y: nat, width: nat)
    requires x < Pow2(width) && y < Pow2(width)
    requires ToBits(x, width) == ToBits(y, width)
    ensures x == y
  {
    ToNatOfToBits(x, width);
    ToNatOfToBits(y, width);
  }

  /** A value read from bits fits them, and gives them back. */
  lemma {:induction false} ToBitsOfToNat(b: Bits)
    ensures ToNat(b) < Pow2(|b|) && ToBits(ToNat(b), |b|) == b
  {
    if b == [] {
    } else {
      ToBitsOfToNat(b[..|b| - 1]);
    }
  }

  lemma DoubledStep(high: nat, size: nat, low: nat, bit: nat)
    ensures 2 * (high * size + low) + bit == high * (2 * size) + (2 * low + bit)
  {
  }

  lemma ToNatStep(b: Bits)
    requires b != []
    ensures ToNat(b) == 2 * ToNat(b[..|b| - 1]) + (if b[|b| - 1] then 1 else 0)
  {
  }

  /** A value read from two parts. */
  lemma {:induction false} ToNatOfParts(high: Bits, low: Bits)
    ensures ToNat(high + low) == ToNat(high) * Pow2(|low|) + ToNat(low)
  {
    if low == [] {
      assert high + low == high;
    } else {
      var front, bit := low[..|low| - 1], if low[|low| - 1] then 1 else 0;
      ToNatOfParts(high, front);
      assert (high + low)[..|high + low| - 1] == high + front;
      ToNatStep(high + low);
      ToNatStep(low);
      DoubledStep(ToNat(high), Pow2(|front|), ToNat(front), bit);
    }
  }

  function Ones(n: nat): (b: Bits)
    ensures |b| == n
  {
    seq(n, _ => true)
  }

  lemma {:induction false} ExtremeValues(n: nat)
    ensures ToNat(Zeros(n)) == 0 && ToNat(Ones(n)) == Pow2(n) - 1
  {
    if n == 0 {
    } else {
      ExtremeValues(n - 1);
      assert Zeros(n)[..n - 1] == Zeros(n - 1) && Ones(n)[..n - 1] == Ones(n - 1);
    }
  }

  lemma SameHighPart(high: nat, low: nat, other: nat, size: nat)
    requires low < size
    ensures other * size <= high * size + low <= other * size + (size - 1) <==> high == other
  {
    if high < other {
      assert (high + 1) * size <= other * size;
    } else if high > other {
      assert (other + 1) * size <= high * size;
    }
  }

  lemma SameValueSameBits(a: Bits, b: Bits)
    requires |a| == |b| && ToNat(a) == ToNat(b)
    ensures a == b
  {
    ToBitsOfToNat(a);
    ToBitsOfToNat(b);
  }

  /** As numbers: the strings of one length that begin with `stem` are an interval. */
  lemma StemIsRange(stem: Bits, b: Bits, free: nat)
    requires |b| == |stem| + free
    ensures stem <= b <==> ToNat(stem + Zeros(free)) <= ToNat(b) <= ToNat(stem + Ones(free))
  {
    var high, low := b[..|stem|], b[|stem|..];
    assert b == high + low && (stem <= b <==> stem == high);
    ToNatOfParts(high, low);
    ToNatOfParts(stem, Zeros(free));
    ToNatOfParts(stem, Ones(free));
    ExtremeValues(free);
    ToBitsOfToNat(low);
    SameHighPart(ToNat(high), ToNat(low), ToNat(stem), Pow2(free));
    if ToNat(high) == ToNat(stem) {
      SameValueSameBits(high, stem);
    }
  }
}
