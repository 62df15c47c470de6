/**
 * A tax rate: a percentage applying to one tax category in one zone, with the
 * integer-money conversions between gross (tax-inclusive) and net prices.
 * Prices are integers in minor currency units; intermediate arithmetic is
 * exact, and each conversion rounds once, where it produces its result.
 */
module TaxRates {
  import opened Wrappers
  import opened Adjustments

  datatype TaxCategory = TaxCategory(id: int, name: string)
  datatype Zone = Zone(id: int, name: string)
  datatype CustomerGroup = CustomerGroup(id: int, name: string)

  /**
   * `value` is the percentage (20.0 for 20%); `sourceId` stands for what the
   * adjustment-source base class reports as this rate's source reference.
   */
  datatype TaxRate = TaxRate(
    id: int,
    sourceId: string,
    name: string,
    enabled: bool,
    value: real,
    category: TaxCategory,
    zone: Zone,
    customerGroup: Option<CustomerGroup>)
  {
    /** Every tax rate produces TAX adjustments; the kind is fixed and cannot be reassigned. */
    const kind: AdjustmentType := Tax

    /** The exact (unrounded) tax contained in a gross price: the gross price less the gross price divided by the rate factor. */
    ghost function ExactTaxIn(grossPrice: int): real
      requires value != -100.0
    {
      grossPrice as real - grossPrice as real / ((100.0 + value) / 100.0)
    }

    /** The exact (unrounded) tax owed on a net price. */
    ghost function ExactTaxOn(netPrice: int): real
    {
      netPrice as real * (value / 100.0)
    }

    /** The tax component of a gross price: the exact tax it contains, rounded. */
    function TaxComponentOf(grossPrice: int): (r: int)
      requires value != -100.0
      ensures ExactTaxIn(grossPrice) - 0.5 < r as real <= ExactTaxIn(grossPrice) + 0.5
      ensures value >= 0.0 && grossPrice >= 0 ==> 0 <= r <= grossPrice
      ensures value == 0.0 ==> r == 0
    {
      ExactTaxInBounds(this, grossPrice);
      Round(grossPrice as real - grossPrice as real / ((100.0 + value) / 100.0))
    }

    /** The net price of a gross price: what is left once its tax component is removed. */
    function NetPriceOf(grossPrice: int): (r: int)
      requires value != -100.0
      ensures grossPrice as real - ExactTaxIn(grossPrice) - 0.5 <= r as real < grossPrice as real - ExactTaxIn(grossPrice) + 0.5
      ensures value >= 0.0 && grossPrice >= 0 ==> 0 <= r <= grossPrice
      ensures value == 0.0 ==> r == grossPrice
    {
      grossPrice - TaxComponentOf(grossPrice)
    }

    /** The tax payable on a net price: the exact tax owed, rounded. */
    function TaxPayableOn(netPrice: int): (r: int)
      ensures ExactTaxOn(netPrice) - 0.5 < r as real <= ExactTaxOn(netPrice) + 0.5
      ensures value >= 0.0 && netPrice >= 0 ==> r >= 0
      ensures value == 0.0 ==> r == 0
    {
      assert value >= 0.0 && netPrice >= 0 ==> netPrice as real * (value / 100.0) >= 0.0;
      Round(netPrice as real * (value / 100.0))
    }

    /** The gross price of a net price: the net price plus the tax payable on it. */
    function GrossPriceOf(netPrice: int): (r: int)
      ensures netPrice as real + ExactTaxOn(netPrice) - 0.5 < r as real <= netPrice as real + ExactTaxOn(netPrice) + 0.5
      ensures value >= 0.0 && netPrice >= 0 ==> r >= netPrice
      ensures value == 0.0 ==> r == netPrice
    {
      netPrice + TaxPayableOn(netPrice)
    }

    /**
     * The tax adjustment for a (net) price. It is always produced, even when its
     * amount is zero: taxing at 0% is still recorded.
     */
    function Apply(price: int): (r: Adjustment)
      ensures r.kind == Tax && r.description == name && r.adjustmentSource == sourceId
      ensures r.amount == GrossPriceOf(price) - price
      ensures value == 0.0 ==> r.amount == 0
      ensures value >= 0.0 && price >= 0 ==> r.amount >= 0
    {
      Adjustment(TaxPayableOn(price), kind, name, sourceId)
    }

    /**
     * Whether this rate applies to a tax category in a zone: both are matched by
     * id only, and the customer group takes no part.
     */
    function Test(zone: Zone, taxCategory: TaxCategory): (r: bool)
      ensures r <==> taxCategory.id == category.id && zone.id == this.zone.id
    {
      taxCategory.id == category.id && zone.id == this.zone.id
    }
  }

  /** Dividing by the rate factor `(100 + v) / 100` leaves the exact net share; the rest is the exact tax. */
  lemma DivideOutRate(g: real, v: real)
    requires v != -100.0
    ensures g / ((100.0 + v) / 100.0) == g * 100.0 / (100.0 + v)
    ensures g - g / ((100.0 + v) / 100.0) == g * v / (100.0 + v)
  {
    var d := 100.0 + v;
    calc {
      g / (d / 100.0);
      (g * 100.0) / d;
    }
    assert g - g * 100.0 / d == (g * d - g * 100.0) / d;
    assert g * d - g * 100.0 == g * v;
  }

  /** With a non-negative rate, the exact tax in a non-negative gross price lies between zero and the price. */
  lemma ExactTaxInBounds(rate: TaxRate, grossPrice: int)
    requires rate.value != -100.0
    ensures rate.value == 0.0 ==> rate.ExactTaxIn(grossPrice) == 0.0
    ensures rate.value >= 0.0 && grossPrice >= 0 ==> 0.0 <= rate.ExactTaxIn(grossPrice) <= grossPrice as real
  {
  }

  /** The net price and the tax component of a gross price add back up to it exactly. */
  lemma NetPlusTaxIsGross(rate: TaxRate, grossPrice: int)
    requires rate.value != -100.0
    ensures rate.NetPriceOf(grossPrice) + rate.TaxComponentOf(grossPrice) == grossPrice
  {
  }

  /** With a non-negative rate, more net price never means less tax. */
  lemma TaxPayableMonotone(rate: TaxRate, n1: int, n2: int)
    requires rate.value >= 0.0 && n1 <= n2
    ensures rate.TaxPayableOn(n1) <= rate.TaxPayableOn(n2)
    ensures rate.GrossPriceOf(n1) <= rate.GrossPriceOf(n2)
  {
    var v := rate.value;
    assert (n2 - n1) as real * (v / 100.0) >= 0.0;
    assert rate.ExactTaxOn(n1) <= rate.ExactTaxOn(n2);
  }

  /**
   * Going from gross to net and back again lands within one minor unit of the
   * original gross price, for every rate between -100% (excluded) and 100%.
   */
  lemma GrossOfNetNearInverse(rate: TaxRate, grossPrice: int)
    requires -100.0 < rate.value <= 100.0
    ensures -1 <= rate.GrossPriceOf(rate.NetPriceOf(grossPrice)) - grossPrice <= 1
  {
    var v := rate.value;
    var g := grossPrice as real;
    var x := rate.ExactTaxIn(grossPrice);
    var t := rate.TaxComponentOf(grossPrice);
    var net := rate.NetPriceOf(grossPrice);
    var y := rate.ExactTaxOn(net);
    assert net as real == g - t as real;
    assert y - x == (x - t as real) * (v / 100.0) by {
      assert g * v / 100.0 - x == x * (v / 100.0) by {
        assert x * (100.0 + v) == g * v;
      }
    }
    assert -0.5 <= y - x <= 0.5 by {
      var e := x - t as real;
      assert -0.5 <= e < 0.5;
      assert -1.0 < v / 100.0 <= 1.0;
      BoundedProduct(e, v / 100.0);
    }
    RoundClose(y, x);
    assert rate.TaxPayableOn(net) == Round(y) by {
      assert net as real * (v / 100.0) == y;
    }
    assert t == Round(x) by {
      DivideOutRate(g, v);
    }
  }

  /** A factor of size at most one cannot enlarge an amount of size at most one half. */
  lemma BoundedProduct(e: real, c: real)
    requires -0.5 <= e <= 0.5 && -1.0 <= c <= 1.0
    ensures -0.5 <= e * c <= 0.5
  {
    if e >= 0.0 {
      if c >= 0.0 { assert e * c <= e * 1.0; } else { assert e * c >= e * -1.0; }
    } else {
      if c >= 0.0 { assert e * c >= e * 1.0; } else { assert e * c <= e * -1.0; }
    }
  }

  /**
   * Going from net to gross and back again is exact for every non-negative
   * rate: the tax component of the gross price is exactly the tax that was added.
   */
  lemma NetOfGrossIsExact(rate: TaxRate, netPrice: int)
    requires rate.value >= 0.0
    ensures rate.NetPriceOf(rate.GrossPriceOf(netPrice)) == netPrice
  {
    var v := rate.value;
    var n := netPrice as real;
    var y := rate.ExactTaxOn(netPrice);
    var p := rate.TaxPayableOn(netPrice);
    var gross := rate.GrossPriceOf(netPrice);
    var z := rate.ExactTaxIn(gross);
    var e := p as real - y;
    var c := v / (100.0 + v);
    assert 0.0 <= c < 1.0;
    assert z == y + e * c by {
      assert gross as real == n + y + e;
      assert (n + y) * v / (100.0 + v) == y by {
        assert (n + y) * v == n * (100.0 + v) * v / 100.0;
      }
    }
    assert z - p as real == -(e * (1.0 - c));
    assert -0.5 <= z - p as real < 0.5 by {
      assert -0.5 < e <= 0.5;
      if e > 0.0 {
        assert e * (1.0 - c) <= e;
      } else {
        assert e * (1.0 - c) >= e;
      }
    }
    assert rate.TaxComponentOf(gross) == p;
  }

  /** Gross-to-net-to-gross is not exact: at 20%, a gross price of 3 comes back as 2. */
  lemma GrossOfNetCanDiffer()
    ensures TaxRate(1, "1", "VAT", true, 20.0, TaxCategory(1, "standard"), Zone(1, "Europe"), None).GrossPriceOf(
              TaxRate(1, "1", "VAT", true, 20.0, TaxCategory(1, "standard"), Zone(1, "Europe"), None).NetPriceOf(3)) == 2
  {
  }

  /** Above 100% the tolerance of one unit is lost: at 300%, a gross price of 2 goes to a net price of 0 and back to 0. */
  lemma GrossOfNetFarAbove100()
    ensures TaxRate(1, "1", "VAT", true, 300.0, TaxCategory(1, "standard"), Zone(1, "Europe"), None).NetPriceOf(2) == 0
    ensures TaxRate(1, "1", "VAT", true, 300.0, TaxCategory(1, "standard"), Zone(1, "Europe"), None).GrossPriceOf(0) == 0
  {
  }

  /** Rounding at the point of computation: 20% of 1000 is 200, and 20% of 999 (199.8) also rounds to 200. */
  lemma TaxPayableExamples(rate: TaxRate)
    requires rate.value == 20.0
    ensures rate.TaxPayableOn(1000) == 200 && rate.TaxPayableOn(999) == 200
  {
  }

  /**
   * Matching is by id: whatever the customer group, and whatever the names of
   * the zone and the category, the result is the same.
   */
  lemma TestMatchesIdsOnly(rate: TaxRate, zone: Zone, taxCategory: TaxCategory,
                           group: Option<CustomerGroup>, zoneName: string, categoryName: string)
    ensures rate.(customerGroup := group).Test(zone.(name := zoneName), taxCategory.(name := categoryName))
         == rate.Test(zone, taxCategory)
  {
  }
}
