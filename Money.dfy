/** C# `decimal` prices and the `(long)` conversion applied to them. A `decimal` is an exact
    base-ten number, so it is modelled by a Dafny `real`: sums and products by 100 are exact. */
module Money {
  import opened Results

  const LongMin: int := -0x8000_0000_0000_0000
  const LongMax: int := 0x7FFF_FFFF_FFFF_FFFF

  /** The integer part of `x`: the fractional digits are discarded, rounding toward zero
      (not toward minus infinity, as `Floor` does). */
  function TruncateTowardZero(x: real): (r: int)
    ensures 0.0 <= x ==> 0 <= r && r as real <= x < r as real + 1.0
    ensures x < 0.0 ==> r <= 0 && r as real - 1.0 < x <= r as real
  {
    if x >= 0.0 then x.Floor else -((-x).Floor)
  }

  /** The two bounds in the contract of `TruncateTowardZero` leave only one integer. */
  lemma TruncationIsUnique(x: real, n: int)
    requires 0.0 <= x ==> 0 <= n && n as real <= x < n as real + 1.0
    requires x < 0.0 ==> n <= 0 && n as real - 1.0 < x <= n as real
    ensures n == TruncateTowardZero(x)
  {
  }

  /** `(long)(price * 100)`: the price in cents, truncated toward zero; `None` where the
      conversion throws `OverflowException` because the value does not fit in a `long`. */
  function MinorUnits(price: real): (r: Option<int>)
    ensures r.Some? <==> LongMin <= TruncateTowardZero(price * 100.0) <= LongMax
    ensures r.Some? ==> LongMin <= r.value <= LongMax
    ensures r.Some? && 0.0 <= price ==> 0 <= r.value && r.value as real <= price * 100.0 < r.value as real + 1.0
    ensures r.Some? && price < 0.0 ==> r.value <= 0 && r.value as real - 1.0 < price * 100.0 <= r.value as real
  {
    var cents := TruncateTowardZero(price * 100.0);
    if LongMin <= cents <= LongMax then Some(cents) else None
  }

  /** A price with at most two decimals converts exactly: 19.99 is 1999 cents. */
  lemma WholeCentsConvertExactly()
    ensures MinorUnits(19.99) == Some(1999)
    ensures MinorUnits(25.00) == Some(2500)
  {
    TruncationIsUnique(1999.0, 1999);
    TruncationIsUnique(2500.0, 2500);
  }

  /** Fractions of a cent are dropped, toward zero on both sides. */
  lemma SubCentFractionsAreDropped()
    ensures MinorUnits(0.015) == Some(1)
    ensures MinorUnits(-0.015) == Some(-1)
  {
    TruncationIsUnique(1.5, 1);
    TruncationIsUnique(-1.5, -1);
  }
}
