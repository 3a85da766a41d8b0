/** Line-item valuation of a product on an opportunity
    (entity/OpportunityProduct.java). BigDecimal arithmetic is exact here:
    every division is by 100, which always terminates, so `real` is exact too. */
module LineItems {
  import opened Base

  /** The fields of an OpportunityProduct that its totals read; percentages are
      written as numbers of percent (10 means 10%). */
  datatype LineItem = LineItem(quantity: Int32, unitPrice: real, discountPercentage: real, taxRate: real)

  /** A line item with the builder's defaults: no discount and no tax. */
  function NewLineItem(quantity: Int32, unitPrice: real): (item: LineItem)
    ensures item.quantity == quantity && item.unitPrice == unitPrice
    ensures item.discountPercentage == 0.0 && item.taxRate == 0.0
  {
    LineItem(quantity, unitPrice, 0.0, 0.0)
  }

  /** getSubtotal: unit price times quantity. */
  function Subtotal(item: LineItem): real
  {
    item.unitPrice * item.quantity as real
  }

  /** getDiscountAmount: the discount percentage of the subtotal. */
  function DiscountAmount(item: LineItem): real
  {
    Subtotal(item) * item.discountPercentage / 100.0
  }

  /** getTotalAfterDiscount. */
  function TotalAfterDiscount(item: LineItem): real
  {
    Subtotal(item) - DiscountAmount(item)
  }

  /** getTaxAmount: the tax rate applied to the discounted total. */
  function TaxAmount(item: LineItem): real
  {
    TotalAfterDiscount(item) * item.taxRate / 100.0
  }

  /** getTotal: discounted total plus tax. */
  function Total(item: LineItem): real
  {
    TotalAfterDiscount(item) + TaxAmount(item)
  }

  /** The chain of getters equals one closed formula: the subtotal scaled by
      (1 - discount/100) and then by (1 + tax/100). */
  lemma TotalClosedForm(item: LineItem)
    ensures TotalAfterDiscount(item) == Subtotal(item) * (1.0 - item.discountPercentage / 100.0)
    ensures Total(item) == Subtotal(item) * (1.0 - item.discountPercentage / 100.0) * (1.0 + item.taxRate / 100.0)
  {
    var s, d := Subtotal(item), item.discountPercentage;
    assert s - s * d / 100.0 == s * (1.0 - d / 100.0);
  }

  /** With the default zero discount and tax the total is the subtotal. */
  lemma DefaultsAddNothing(quantity: Int32, unitPrice: real)
    ensures DiscountAmount(NewLineItem(quantity, unitPrice)) == 0.0
    ensures TaxAmount(NewLineItem(quantity, unitPrice)) == 0.0
    ensures Total(NewLineItem(quantity, unitPrice)) == Subtotal(NewLineItem(quantity, unitPrice))
  {
  }

  /** For non-negative prices, quantities and tax and a discount of at most
      100%, the discount never makes the total negative nor larger than the
      subtotal, and tax only adds. */
  lemma {:induction false} TotalBounds(item: LineItem)
    requires item.unitPrice >= 0.0 && item.quantity >= 0 && item.taxRate >= 0.0
    requires 0.0 <= item.discountPercentage <= 100.0
    ensures Subtotal(item) >= 0.0
    ensures 0.0 <= DiscountAmount(item) <= Subtotal(item)
    ensures 0.0 <= TotalAfterDiscount(item) <= Subtotal(item)
    ensures TaxAmount(item) >= 0.0
    ensures Total(item) >= TotalAfterDiscount(item)
  {
    var s, d, t := Subtotal(item), item.discountPercentage, item.taxRate;
    assert s >= 0.0 by { NonNegativeProduct(item.unitPrice, item.quantity as real); }
    assert s * d <= s * 100.0 by { MonotoneProduct(s, d, 100.0); }
    assert 0.0 <= s * d by { NonNegativeProduct(s, d); }
    assert DiscountAmount(item) == s * d / 100.0 <= s;
    assert TaxAmount(item) >= 0.0 by { NonNegativeProduct(TotalAfterDiscount(item), t); }
  }

  lemma MonotoneProduct(x: real, y: real, z: real)
    requires x >= 0.0 && y <= z
    ensures x * y <= x * z
  {
  }

  /** 3 units at 100 with 10% discount and 8% tax: 300, 30, 270, 21.6, 291.6. */
  lemma WorkedExample()
    ensures var item := LineItem(3, 100.0, 10.0, 8.0);
            && Subtotal(item) == 300.0
            && DiscountAmount(item) == 30.0
            && TotalAfterDiscount(item) == 270.0
            && TaxAmount(item) == 21.6
            && Total(item) == 291.6
  {
  }
}
