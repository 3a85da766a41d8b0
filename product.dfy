/** Catalog products and their profit margin (entity/Product.java). */
module Products {
  import opened Base

  /** RoundingMode.HALF_UP to an integer: the nearest integer, ties away from zero. */
  function RoundHalfUp(x: real): (n: int)
    ensures -0.5 <= n as real - x <= 0.5
    ensures x >= 0.0 ==> n >= 0
    ensures x >= 0.0 ==> n as real - x > -0.5
    ensures x < 0.0 ==> n as real - x < 0.5
  {
    if x >= 0.0 then (x + 0.5).Floor else -((-x + 0.5).Floor)
  }

  /** getProfitMargin: (unit - cost) / cost rounded HALF_UP to four decimals,
      times 100; zero when either price is null or the cost is zero. */
  function ProfitMargin(unitPrice: Option<real>, costPrice: Option<real>): real
  {
    if unitPrice.None? || costPrice.None? || costPrice.value == 0.0 then 0.0
    else RoundHalfUp((unitPrice.value - costPrice.value) / costPrice.value * 10000.0) as real / 10000.0 * 100.0
  }

  /** The margin is a whole number of hundredths of a percent point and lies
      within 0.005 of the exact percentage (unit - cost) / cost * 100. */
  lemma {:induction false} MarginPrecision(unitPrice: real, costPrice: real)
    requires costPrice != 0.0
    ensures var m := ProfitMargin(Some(unitPrice), Some(costPrice));
            && (m * 100.0).Floor as real == m * 100.0
            && -0.005 <= m - (unitPrice - costPrice) / costPrice * 100.0 <= 0.005
  {
    var x := (unitPrice - costPrice) / costPrice * 10000.0;
    var n := RoundHalfUp(x);
    var m := ProfitMargin(Some(unitPrice), Some(costPrice));
    assert m == n as real / 100.0;
    assert m * 100.0 == n as real;
    assert (unitPrice - costPrice) / costPrice * 100.0 == x / 100.0;
  }

  /** Missing prices or a zero cost give a zero margin. */
  lemma MarginGuard(unitPrice: Option<real>, costPrice: Option<real>)
    requires unitPrice.None? || costPrice.None? || costPrice == Some(0.0)
    ensures ProfitMargin(unitPrice, costPrice) == 0.0
  {
  }

  /** Selling at cost gives a zero margin, selling above a positive cost a
      non-negative one, and 150 over a cost of 100 gives 50. */
  lemma {:induction false} MarginSign(unitPrice: real, costPrice: real)
    requires costPrice > 0.0
    ensures unitPrice == costPrice ==> ProfitMargin(Some(unitPrice), Some(costPrice)) == 0.0
    ensures unitPrice >= costPrice ==> ProfitMargin(Some(unitPrice), Some(costPrice)) >= 0.0
    ensures ProfitMargin(Some(150.0), Some(100.0)) == 50.0
  {
    var x := (unitPrice - costPrice) / costPrice * 10000.0;
    if unitPrice >= costPrice {
      assert (unitPrice - costPrice) / costPrice >= 0.0;
      assert x >= 0.0;
    }
    assert RoundHalfUp(5000.0) == 5000;
  }
}
