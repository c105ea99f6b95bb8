/**
 * `handle_duty_calculation` of modules/hts_duty_calculator.py: the landed cost
 * of a shipment from the first tariff row matching its code.
 */
module DutyCalculator {
  import opened Wrappers
  import opened RateParser
  import opened TariffLookup

  /** The dictionary `{"Duty Cost": …, "Total Landed Cost": …}`. */
  datatype DutyResult = DutyResult(dutyCost: real, totalLandedCost: real)

  /** A whole number of cents. */
  predicate IsCents(x: real)
  {
    (x * 100.0).Floor as real == x * 100.0
  }

  /**
   * `round(x, 2)`, rounding a half cent up. Python rounds an exact half cent
   * to even instead, so the contracts built on this one allow an error of a
   * half cent either way.
   */
  function Round2(x: real): (r: real)
    ensures -0.005 < r - x <= 0.005
    ensures IsCents(r)
    ensures x >= 0.0 ==> r >= 0.0
  {
    (x * 100.0 + 0.5).Floor as real / 100.0
  }

  /**
   * Lines 17-20 for one rate: the rate applies to the product cost, and the
   * total adds the unrounded duty to the costs before both are rounded.
   */
  function Priced(dutyRate: real, productCost: real, freight: real, insurance: real): (r: DutyResult)
    ensures -0.005 <= r.dutyCost - productCost * dutyRate <= 0.005
    ensures -0.005 <= r.totalLandedCost - (productCost + freight + insurance + productCost * dutyRate) <= 0.005
    ensures IsCents(r.dutyCost) && IsCents(r.totalLandedCost)
  {
    var dutyCost := productCost * dutyRate;
    var totalCost := productCost + freight + insurance + dutyCost;
    DutyResult(Round2(dutyCost), Round2(totalCost))
  }

  /**
   * Lines 11-20 on the rows the lookup returned: no row means no duty and no
   * total; otherwise the first row's rate is priced.
   */
  function LandedCost(rows: seq<TariffRow>, productCost: real, freight: real, insurance: real): (r: DutyResult)
    ensures rows == [] ==> r == DutyResult(0.0, 0.0)
    ensures rows != [] ==>
              var duty := productCost * rows[0].rate;
              && -0.005 <= r.dutyCost - duty <= 0.005
              && -0.005 <= r.totalLandedCost - (productCost + freight + insurance + duty) <= 0.005
    ensures IsCents(r.dutyCost) && IsCents(r.totalLandedCost)
  {
    if rows == [] then DutyResult(0.0, 0.0)
    else Priced(rows[0].rate, productCost, freight, insurance)
  }

  /** `handle_duty_calculation(code, cost, freight, insurance)`. */
  function HandleDutyCalculation(schedule: Schedule, code: string,
                                 productCost: real, freight: real, insurance: real): (r: DutyResult)
    ensures Lookup(schedule, code) == [] ==> r == DutyResult(0.0, 0.0)
    ensures Lookup(schedule, code) != [] ==>
              var duty := productCost * Lookup(schedule, code)[0].rate;
              && -0.005 <= r.dutyCost - duty <= 0.005
              && -0.005 <= r.totalLandedCost - (productCost + freight + insurance + duty) <= 0.005
    ensures IsCents(r.dutyCost) && IsCents(r.totalLandedCost)
  {
    LandedCost(Lookup(schedule, code), productCost, freight, insurance)
  }

  // ------------------------------------------------------------ properties

  /** Only the first matching row matters: two lookups agreeing on its rate give the same result. */
  lemma FirstRowDecides(rows1: seq<TariffRow>, rows2: seq<TariffRow>,
                        productCost: real, freight: real, insurance: real)
    requires rows1 != [] && rows2 != [] && rows1[0].rate == rows2[0].rate
    ensures LandedCost(rows1, productCost, freight, insurance)
         == LandedCost(rows2, productCost, freight, insurance)
  {
    var rate := rows1[0].rate;
    assert LandedCost(rows1, productCost, freight, insurance) == Priced(rate, productCost, freight, insurance);
    assert LandedCost(rows2, productCost, freight, insurance) == Priced(rate, productCost, freight, insurance);
  }

  /** With non-negative inputs and rates the duty is non-negative and the total covers the costs. */
  lemma NonNegativeCosts(rows: seq<TariffRow>, productCost: real, freight: real, insurance: real)
    requires productCost >= 0.0 && freight >= 0.0 && insurance >= 0.0
    requires forall i :: 0 <= i < |rows| ==> rows[i].rate >= 0.0
    ensures LandedCost(rows, productCost, freight, insurance).dutyCost >= 0.0
    ensures rows != [] ==>
              LandedCost(rows, productCost, freight, insurance).totalLandedCost
                >= productCost + freight + insurance - 0.005
  {
    if rows != [] {
      assert productCost * rows[0].rate >= 0.0;
    }
  }

  /** A zero rate (a "free" line) costs no duty, and the total is the rounded sum of the costs. */
  lemma ZeroRateNoDuty(rows: seq<TariffRow>, productCost: real, freight: real, insurance: real)
    requires rows != [] && rows[0].rate == 0.0
    ensures LandedCost(rows, productCost, freight, insurance)
         == DutyResult(0.0, Round2(productCost + freight + insurance))
  {
  }

  /** An unknown code, or an unreadable schedule, costs nothing whatever the inputs. */
  lemma NoRowNoCost(schedule: Schedule, code: string, productCost: real, freight: real, insurance: real)
    requires Lookup(schedule, code) == []
    ensures HandleDutyCalculation(schedule, code, productCost, freight, insurance) == DutyResult(0.0, 0.0)
  {
  }

  /** Worked example: a 5% line, cost 1000, freight 50, insurance 20. */
  lemma WorkedExample(s: Schedule)
    requires s == Present([RawRow("0101.21.00", Text("5%"))])
    ensures HandleDutyCalculation(s, "0101.21.00", 1000.0, 50.0, 20.0) == DutyResult(50.0, 1120.0)
  {
    PercentExamples();
    var p := ParseColumn(s.rows, ParseDutyRate).value;
    assert p == [TariffRow("0101.21.00", 0.05)];
    assert p[..0] == [];
    assert Lookup(s, "0101.21.00") == p;
    assert Round2(50.0) == 50.0;
    assert Round2(1120.0) == 1120.0;
  }

  /**
   * The total is rounded from the unrounded duty: here the duty rounds down to
   * 0.00 while the total rounds up.
   */
  lemma TotalUsesUnroundedDuty(s: Schedule)
    requires s == Present([RawRow("9999", Number(0.004))])
    ensures HandleDutyCalculation(s, "9999", 1.0, 0.003, 0.0) == DutyResult(0.0, 1.01)
    ensures Round2(1.0 + 0.003 + 0.0 + HandleDutyCalculation(s, "9999", 1.0, 0.003, 0.0).dutyCost) == 1.0
  {
    var p := ParseColumn(s.rows, ParseDutyRate).value;
    assert p == [TariffRow("9999", 0.004)];
    assert p[..0] == [];
    assert Lookup(s, "9999") == p;
    assert Round2(0.004) == 0.0;
    assert Round2(1.007) == 1.01;
    assert Round2(1.003) == 1.0;
  }
}
