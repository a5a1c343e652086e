/** The short form in which sizes are shown. */
module PrettySize {
  import opened Wire

  /** 1024 ^ n. */
  function Unit(n: nat): (u: nat)
    ensures u > 0
  {
    if n == 0 then 1 else 1024 * Unit(n - 1)
  }

  const UNITS: nat := 5 // no letter, K, M, G and T

  /** A size split over its unit `div`: whole units, then how many of the next smaller unit, the rest cut off. */
  ghost predicate IsSplit(size: nat, whole: nat, rem: nat, div: nat) {
    && rem < 1024
    && if div == 0 then whole == size && rem == 0
       else (whole * 1024 + rem) * Unit(div - 1) <= size < (whole * 1024 + rem + 1) * Unit(div - 1)
  }

  /** Splitting once more keeps the bounds. */
  lemma OneUnitUp(size: nat, whole: nat, rem: nat, div: nat)
    requires IsSplit(size, whole, rem, div)
    ensures IsSplit(size, whole / 1024, whole % 1024, div + 1)
  {
    var u := Unit(div);
    assert whole / 1024 * 1024 + whole % 1024 == whole;
    if div > 0 {
      var v := Unit(div - 1);
      Carry(size, whole, rem, v);
      assert u == 1024 * v;
    }
  }

  lemma Carry(size: nat, whole: nat, rem: nat, v: nat)
    requires rem < 1024 && (whole * 1024 + rem) * v <= size < (whole * 1024 + rem + 1) * v
    ensures whole * (1024 * v) <= size < (whole + 1) * (1024 * v)
  {
    assert whole * (1024 * v) == (whole * 1024) * v;
    assert (whole * 1024) * v <= (whole * 1024 + rem) * v;
    assert (whole + 1) * (1024 * v) == (whole * 1024 + 1024) * v;
    assert (whole * 1024 + rem + 1) * v <= (whole * 1024 + 1024) * v;
  }

  /** A split with `whole` units is at least that big, and smaller than one more. */
  lemma SplitBounds(size: nat, whole: nat, rem: nat, div: nat)
    requires IsSplit(size, whole, rem, div)
    ensures whole * Unit(div) <= size < (whole + 1) * Unit(div)
  {
    if div > 0 {
      Carry(size, whole, rem, Unit(div - 1));
    }
  }

  lemma {:induction false} UnitsGrow(m: nat, n: nat)
    requires m <= n
    ensures Unit(m) <= Unit(n)
  {
    if m < n {
      UnitsGrow(m, n - 1);
    }
  }

  lemma AtLeastOne(whole: nat, u: nat)
    requires whole > 0
    ensures whole * u >= u
  {
  }

  /** The number is below 1024 units and the unit the largest that fits, if the size is below 1024 T; the unit is then one
      that has a name. At 1024 T and above, and only there, the loop runs once more and `div` is not the place of a name. */
  method Split(size: nat) returns (whole: nat, rem: nat, div: nat)
    requires size < U64_LIMIT
    ensures IsSplit(size, whole, rem, div)
    ensures div < UNITS <==> size < Unit(UNITS)
    ensures size < Unit(UNITS) ==> whole < 1024
    ensures size < Unit(UNITS) ==> if div == 0 then size < 1024 else Unit(div) <= size < Unit(div + 1)
  {
    whole, rem, div := size, 0, 0;
    while whole >= 1024 && div < UNITS
      invariant div <= UNITS && IsSplit(size, whole, rem, div)
      invariant div > 0 ==> whole > 0
    {
      OneUnitUp(size, whole, rem, div);
      rem := whole % 1024;
      div := div + 1;
      whole := whole / 1024;
    }
    SplitBounds(size, whole, rem, div);
    if div > 0 {
      AtLeastOne(whole, Unit(div));
    }
    if div < UNITS {
      assert (whole + 1) * Unit(div) <= Unit(div + 1);
      UnitsGrow(div + 1, UNITS);
    }
  }
}
