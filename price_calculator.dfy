/** Batch pricing and result formatting (backend/utils/priceCalculator.js). */
module PriceCalculator {
  import opened Ledger
  import opened DiscountService

  /** A presence as the report queries return it: the bringing member, the activity
      and the id the discount engine checks for membership. */
  datatype PresenceRef = PresenceRef(idMember: Option<int>, idActivity: int, personId: Option<int>)

  function ActualPriceOf(s: Store, p: PresenceRef, originalPrice: real): real {
    CalculateActualPrice(s, originalPrice, p.idMember, p.idActivity, p.personId)
  }

  /** Sum of the actual prices of the presences, all priced from one base price. */
  function TotalExpected(s: Store, presences: seq<PresenceRef>, originalPrice: real): (total: real)
    ensures |presences| == 0 ==> total == 0.0
  {
    if |presences| == 0 then 0.0
    else ActualPriceOf(s, presences[0], originalPrice) + TotalExpected(s, presences[1..], originalPrice)
  }

  lemma {:induction false} TotalExpectedAppend(s: Store, presences: seq<PresenceRef>, p: PresenceRef, originalPrice: real)
    ensures TotalExpected(s, presences + [p], originalPrice)
         == TotalExpected(s, presences, originalPrice) + ActualPriceOf(s, p, originalPrice)
  {
    if |presences| == 0 {
      assert presences + [p] == [p];
    } else {
      assert (presences + [p])[1..] == presences[1..] + [p];
      TotalExpectedAppend(s, presences[1..], p, originalPrice);
    }
  }

  /** The total is additive over a split of the presence list. */
  lemma {:induction false} TotalExpectedConcat(s: Store, a: seq<PresenceRef>, b: seq<PresenceRef>, originalPrice: real)
    ensures TotalExpected(s, a + b, originalPrice)
         == TotalExpected(s, a, originalPrice) + TotalExpected(s, b, originalPrice)
  {
    if |a| == 0 {
      assert a + b == b;
    } else {
      assert (a + b)[1..] == a[1..] + b;
      TotalExpectedConcat(s, a[1..], b, originalPrice);
    }
  }

  /** The loop of calculateTotalExpectedPrice: one discount evaluation per presence. */
  method CalculateTotalExpectedPrice(s: Store, presences: seq<PresenceRef>, originalPrice: real) returns (total: real)
    ensures total == TotalExpected(s, presences, originalPrice)
  {
    total := 0.0;
    for i := 0 to |presences|
      invariant total == TotalExpected(s, presences[..i], originalPrice)
    {
      var actualPrice := CalculateActualPrice(s, originalPrice, presences[i].idMember,
                                              presences[i].idActivity, presences[i].personId);
      TotalExpectedAppend(s, presences[..i], presences[i], originalPrice);
      assert presences[..i + 1] == presences[..i] + [presences[i]];
      total := total + actualPrice;
    }
    assert presences[..|presences|] == presences;
  }

  /** When no presence is discounted the total is the count times the base price. */
  lemma {:induction false} TotalWithoutDiscount(s: Store, presences: seq<PresenceRef>, originalPrice: real)
    requires forall i :: 0 <= i < |presences| ==>
      !CalculateDiscountedPrice(s, originalPrice, presences[i].idMember, presences[i].idActivity, presences[i].personId).hasDiscount
    ensures TotalExpected(s, presences, originalPrice) == |presences| as real * originalPrice
  {
    if |presences| > 0 {
      TotalWithoutDiscount(s, presences[1..], originalPrice);
      calc {
        TotalExpected(s, presences, originalPrice);
        originalPrice + (|presences| - 1) as real * originalPrice;
        |presences| as real * originalPrice;
      }
    }
  }

  /** Every presence charged the base price. */
  function BaseTotal(presences: seq<PresenceRef>, originalPrice: real): real {
    if |presences| == 0 then 0.0 else originalPrice + BaseTotal(presences[1..], originalPrice)
  }

  lemma {:induction false} BaseTotalIsProduct(presences: seq<PresenceRef>, originalPrice: real)
    ensures BaseTotal(presences, originalPrice) == |presences| as real * originalPrice
  {
    if |presences| > 0 {
      BaseTotalIsProduct(presences[1..], originalPrice);
      assert |presences| as real * originalPrice == originalPrice + (|presences| - 1) as real * originalPrice;
    }
  }

  /** Each presence is charged between 0 and the base price, so the total is too. */
  lemma {:induction false} TotalAtMostBase(s: Store, presences: seq<PresenceRef>, originalPrice: real)
    requires |s.constants| > 0 ==> 0.0 <= s.constants[0].remise <= 1.0
    requires originalPrice >= 0.0
    ensures 0.0 <= TotalExpected(s, presences, originalPrice) <= BaseTotal(presences, originalPrice)
  {
    if |presences| > 0 {
      var p := presences[0];
      DiscountedPriceBounded(s, originalPrice, p.idMember, p.idActivity, p.personId);
      TotalAtMostBase(s, presences[1..], originalPrice);
    }
  }

  /** With a rate in [0, 1] and a non-negative base price, the total lies between 0 and
      the undiscounted total. */
  lemma TotalBounded(s: Store, presences: seq<PresenceRef>, originalPrice: real)
    requires |s.constants| > 0 ==> 0.0 <= s.constants[0].remise <= 1.0
    requires originalPrice >= 0.0
    ensures 0.0 <= TotalExpected(s, presences, originalPrice) <= |presences| as real * originalPrice
  {
    TotalAtMostBase(s, presences, originalPrice);
    BaseTotalIsProduct(presences, originalPrice);
  }

  /** A report row before formatting: its own fields and the three money figures,
      any of which may be absent from the object. */
  datatype FinancialResult<T> = FinancialResult(
    fields: T,
    totalPrice: Option<real>,
    totalPaid: Option<real>,
    remainingBalance: Option<real>)

  datatype Formatted<T> = Formatted(fields: T, totalPrice: real, totalPaid: real, remainingBalance: real)

  /** formatFinancialResult: every other field is kept, a missing figure becomes 0.
      The two-decimal rounding of total_price and remaining_balance is not modelled. */
  function FormatFinancialResult<T>(result: FinancialResult<T>): (f: Formatted<T>)
    ensures f.fields == result.fields
    ensures f.totalPrice == (if result.totalPrice.Some? then result.totalPrice.value else 0.0)
    ensures f.totalPaid == (if result.totalPaid.Some? then result.totalPaid.value else 0.0)
    ensures f.remainingBalance == (if result.remainingBalance.Some? then result.remainingBalance.value else 0.0)
  {
    Formatted(result.fields, result.totalPrice.GetOr(0.0), result.totalPaid.GetOr(0.0),
              result.remainingBalance.GetOr(0.0))
  }
}
