/**
 The arithmetic of top-up amounts.  An administrator configures how many quota units
 one currency unit buys; users pay in currency units or, in token mode, in quota
 units.  Decimals are exact, except that division rounds to sixteen places.
 */
module TopUp {
  import opened Basics

  datatype Error = InvalidQuota | OutOfRange
  datatype Result<+T> = Ok(value: T) | Err(error: Error)

  const PLACES := 10_000_000_000_000_000.0  // 10^16

  /** `quotaPerUnit` must be positive to be usable; `maxStored` is the largest storable quota. */
  datatype Config = Config(quotaPerUnit: real, minTopUp: int, tokens: bool, maxStored: nat)

  function Truncate(x: real): int {
    if x >= 0.0 then x.Floor else -((-x).Floor)
  }

  function CheckedInt64(value: real): Result<int> {
    var whole := Truncate(value);
    if whole < 0 || whole > MAX_INT64 then Err(OutOfRange) else Ok(whole)
  }

  /** Conversion never wraps: it succeeds exactly on the range whose whole part fits, and
      then yields that whole part. */
  lemma CheckedInt64IsExact(value: real)
    ensures CheckedInt64(value).Ok? <==> -1.0 < value < MAX_INT64 as real + 1.0
    ensures CheckedInt64(value).Ok? && value >= 0.0 ==>
              CheckedInt64(value).value as real <= value < CheckedInt64(value).value as real + 1.0
    ensures CheckedInt64(value).Ok? && value < 0.0 ==> CheckedInt64(value).value == 0
  {
    if value < 0.0 {
      assert (-value).Floor as real <= -value < (-value).Floor as real + 1.0;
    }
  }

  /** Decimal division of non-negative numbers: sixteen places, half rounds up. */
  function Divide(a: real, b: real): real
    requires b > 0.0
  {
    ((a / b * PLACES + 0.5).Floor as real) / PLACES
  }

  function GetMinTopup(c: Config): Result<int> {
    if c.quotaPerUnit <= 0.0 || c.minTopUp < 0 then Err(InvalidQuota)
    else
      var minimum := c.minTopUp as real;
      CheckedInt64(if c.tokens then minimum * c.quotaPerUnit else minimum)
  }

  function NormalizeEpayAmount(c: Config, amount: int): Result<int> {
    if c.quotaPerUnit <= 0.0 || amount <= 0 then Err(InvalidQuota)
    else if c.tokens then CheckedInt64(Divide(amount as real, c.quotaPerUnit))
    else Ok(amount)
  }

  function MaxTopUpAmount(c: Config): int {
    if c.quotaPerUnit <= 0.0 then 0
    else
      var maximum := (c.maxStored as real / c.quotaPerUnit).Floor;
      if maximum > MAX_INT64 then MAX_INT64 else maximum
  }

  /** The settlement rule: what an order of `amount` currency units credits. */
  function QuotaFromAmount(c: Config, amount: int): Result<int> {
    if amount <= 0 || c.quotaPerUnit <= 0.0 then Err(InvalidQuota)
    else CheckedQuota(Worth(c, amount), c.maxStored)
  }

  /** The quota that `amount` currency units buy. */
  function Worth(c: Config, amount: int): real {
    amount as real * c.quotaPerUnit
  }

  function CheckedQuota(quota: real, maxStored: nat): Result<int> {
    if quota < 1.0 || quota > maxStored as real then Err(OutOfRange) else Ok(Truncate(quota))
  }

  // --------------------------------------------------------- the maximum hint

  lemma ScaleBy(x: real, y: real, q: real)
    requires q > 0.0
    ensures x <= y <==> x * q <= y * q
  {
    assert x * q - y * q == (x - y) * q;
  }

  lemma QuotientBound(a: real, m: real, q: real)
    requires q > 0.0
    ensures a <= m / q <==> a * q <= m
  {
    var d := m / q;
    assert d * q == m;
    ScaleBy(a, d, q);
  }

  /** The hint is exact, also where it saturates: an amount is within it exactly
      when its quota fits the stored maximum. */
  lemma MaxTopUpIsExact(c: Config, amount: int)
    requires c.quotaPerUnit > 0.0 && 0 <= amount <= MAX_INT64
    ensures amount <= MaxTopUpAmount(c) <==> Worth(c, amount) <= c.maxStored as real
    ensures 0 <= MaxTopUpAmount(c) <= MAX_INT64
  {
    QuotientBound(0.0, c.maxStored as real, c.quotaPerUnit);
    QuotientBound(amount as real, c.maxStored as real, c.quotaPerUnit);
    var quotient := c.maxStored as real / c.quotaPerUnit;
    assert amount <= quotient.Floor <==> amount as real <= quotient;
  }

  /** So settlement accepts exactly the amounts within the hint that are worth a quota unit. */
  lemma HintAgreesWithSettlement(c: Config, amount: int)
    requires c.quotaPerUnit > 0.0 && 0 < amount <= MAX_INT64
    ensures QuotaFromAmount(c, amount).Ok? <==> Worth(c, amount) >= 1.0 && amount <= MaxTopUpAmount(c)
  {
    MaxTopUpIsExact(c, amount);
    Settles(amount, MaxTopUpAmount(c), Worth(c, amount), c.maxStored);
  }

  lemma Settles(amount: int, hint: int, quota: real, maxStored: nat)
    requires amount <= hint <==> quota <= maxStored as real
    ensures CheckedQuota(quota, maxStored).Ok? <==> quota >= 1.0 && amount <= hint
  {
  }

  /** The three operations reject a request as invalid exactly for a configuration without a
      positive quota per unit or an amount that is not positive (a minimum that is
      negative), and then nothing is hinted. */
  lemma InvalidIff(c: Config, amount: int)
    ensures GetMinTopup(c) == Err(InvalidQuota) <==> c.quotaPerUnit <= 0.0 || c.minTopUp < 0
    ensures NormalizeEpayAmount(c, amount) == Err(InvalidQuota) <==> c.quotaPerUnit <= 0.0 || amount <= 0
    ensures QuotaFromAmount(c, amount) == Err(InvalidQuota) <==> c.quotaPerUnit <= 0.0 || amount <= 0
    ensures c.quotaPerUnit <= 0.0 ==> MaxTopUpAmount(c) == 0
  {
  }

  /** What is credited is the whole part of what the stored amount is worth. */
  lemma CreditsWorth(c: Config, amount: int)
    requires QuotaFromAmount(c, amount).Ok?
    ensures var v := QuotaFromAmount(c, amount).value;
            1 <= v <= c.maxStored && v as real <= Worth(c, amount) < v as real + 1.0
  {
    WholePart(Worth(c, amount), c.maxStored);
  }

  lemma WholePart(quota: real, maxStored: nat)
    requires CheckedQuota(quota, maxStored).Ok?
    ensures var v := CheckedQuota(quota, maxStored).value;
            1 <= v <= maxStored && v as real <= quota < v as real + 1.0
  {
  }

  /** What a paid amount finally credits, over normalisation and settlement.  In currency
      mode it is what the amount is worth, but for a fraction of a quota unit.  In token mode
      it is never more than the amount, but for the tolerance of the division, and falls
      short by less than one currency unit and one quota unit. */
  lemma PaidAmountCredits(c: Config, amount: int)
    requires NormalizeEpayAmount(c, amount).Ok? && QuotaFromAmount(c, NormalizeEpayAmount(c, amount).value).Ok?
    ensures var v := QuotaFromAmount(c, NormalizeEpayAmount(c, amount).value).value as real;
            var paid, q := amount as real, c.quotaPerUnit;
            if c.tokens then v <= paid + Slack(q) && paid + Slack(q) < v + 1.0 + q
            else v <= paid * q < v + 1.0
  {
    var stored := NormalizeEpayAmount(c, amount).value;
    CreditsWorth(c, stored);
    if c.tokens {
      TokensStored(c, amount, stored, Worth(c, stored));
    }
  }

  lemma TokensStored(c: Config, amount: int, stored: int, worth: real)
    requires c.tokens && NormalizeEpayAmount(c, amount) == Ok(stored) && worth == stored as real * c.quotaPerUnit
    ensures worth <= amount as real + Slack(c.quotaPerUnit) < worth + c.quotaPerUnit
  {
    NormalisesTo(c, amount, stored, worth);
    Distribute(stored as real, -1.0, c.quotaPerUnit);
    NormalisesTo(c, amount, stored + 1, worth + c.quotaPerUnit);
  }

  lemma MinimumChecks(c: Config, price: real)
    requires price == if c.tokens then Worth(c, c.minTopUp) else c.minTopUp as real
    requires c.quotaPerUnit > 0.0 && c.minTopUp >= 0
    ensures price >= 0.0 && GetMinTopup(c) == CheckedInt64(price)
  {
    ProductSign(c.minTopUp as real, c.quotaPerUnit, Worth(c, c.minTopUp));
  }

  /** The minimum is the whole part of what `minTopUp` costs, in the unit users pay in. */
  lemma MinimumIs(c: Config, price: real)
    requires price == if c.tokens then Worth(c, c.minTopUp) else c.minTopUp as real
    ensures GetMinTopup(c).Ok? <==> c.quotaPerUnit > 0.0 && c.minTopUp >= 0 && price < MAX_INT64 as real + 1.0
    ensures GetMinTopup(c).Ok? ==> GetMinTopup(c).value as real <= price < GetMinTopup(c).value as real + 1.0
  {
    if c.quotaPerUnit > 0.0 && c.minTopUp >= 0 {
      MinimumChecks(c, price);
      WholeInt64(price, GetMinTopup(c));
    }
  }

  lemma WholeInt64(price: real, r: Result<int>)
    requires price >= 0.0 && r == CheckedInt64(price)
    ensures r.Ok? <==> price < MAX_INT64 as real + 1.0
    ensures r.Ok? ==> r.value as real <= price < r.value as real + 1.0
  {
    CheckedInt64IsExact(price);
  }

  // ------------------------------------------------- the minimum in token mode

  /** Rounding never carries a quotient below a whole number it had reached. */
  lemma DivideReaches(a: real, b: real, n: int)
    requires b > 0.0
    ensures Divide(a, b) >= n as real <==> a + Slack(b) >= n as real * b
  {
    var x := a / b * PLACES + 0.5;
    var whole := n * 10_000_000_000_000_000;
    assert whole as real == n as real * PLACES;
    assert x.Floor >= whole <==> x >= whole as real;
    assert Divide(a, b) >= n as real <==> x.Floor >= whole;
    assert x >= whole as real <==> a / b >= n as real - 0.5 / PLACES;
    ScaleUp(a, b, n as real - 0.5 / PLACES);
    assert (n as real - 0.5 / PLACES) * b == n as real * b - b / (2.0 * PLACES);
  }

  lemma ScaleUp(a: real, b: real, y: real)
    requires b > 0.0
    ensures a / b >= y <==> a >= y * b
  {
    QuotientBound(y, a, b);
  }

  lemma TruncateReaches(x: real, n: int)
    requires x >= 0.0
    ensures Truncate(x) >= n <==> x >= n as real
  {
  }

  /** The tolerance that rounding to sixteen places grants a division by `q`. */
  function Slack(q: real): real {
    q / (2.0 * PLACES)
  }

  /** When normalisation of an amount yields at least `n`; `p` is the price of `n` in quota. */
  lemma NormalisesTo(c: Config, amount: int, n: int, p: real)
    requires c.tokens && c.quotaPerUnit > 0.0 && amount > 0 && p == n as real * c.quotaPerUnit
    ensures NormalizeEpayAmount(c, amount).Ok? ==>
              (NormalizeEpayAmount(c, amount).value >= n <==> amount as real + Slack(c.quotaPerUnit) >= p)
    ensures n <= MAX_INT64 + 1 && amount as real + Slack(c.quotaPerUnit) < p ==> NormalizeEpayAmount(c, amount).Ok?
    ensures NormalizeEpayAmount(c, amount).Ok? ==> NormalizeEpayAmount(c, amount).value >= 0
  {
    var x := Divide(amount as real, c.quotaPerUnit);
    DivideReaches(amount as real, c.quotaPerUnit, n);
    DivideReaches(amount as real, c.quotaPerUnit, 0);
    TruncateReaches(x, n);
    TruncateReaches(x, 0);
  }

  /** The smallest amount the minimum check lets through. */
  function LeastAmount(c: Config): int
    requires GetMinTopup(c).Ok?
  {
    var minimum := GetMinTopup(c).value;
    if minimum < 1 then 1 else minimum
  }

  /** The least amount undercuts the price `p` of the minimum by less than one quota unit. */
  lemma LeastAmountBounds(c: Config, p: real)
    requires c.tokens && GetMinTopup(c).Ok? && p == c.minTopUp as real * c.quotaPerUnit
    ensures c.quotaPerUnit > 0.0
    ensures 1 <= LeastAmount(c) <= MAX_INT64 && LeastAmount(c) as real > p - 1.0
    ensures p.Floor as real == p ==> LeastAmount(c) as real >= p
  {
    PriceIsChecked(c, p);
    LeastOf(p, GetMinTopup(c), LeastAmount(c));
  }

  lemma ProductSign(a: real, b: real, p: real)
    requires a >= 0.0 && b > 0.0 && p == a * b
    ensures p >= 0.0
  {
  }

  lemma PriceIsChecked(c: Config, p: real)
    requires c.tokens && GetMinTopup(c).Ok? && p == c.minTopUp as real * c.quotaPerUnit
    ensures c.quotaPerUnit > 0.0 && p >= 0.0 && GetMinTopup(c) == CheckedInt64(p)
  {
    MinimumChecks(c, p);
  }

  lemma LeastOf(p: real, r: Result<int>, least: int)
    requires r.Ok? && p >= 0.0 && r == CheckedInt64(p) && least == if r.value < 1 then 1 else r.value
    ensures 1 <= least <= MAX_INT64 && least as real > p - 1.0
    ensures p.Floor as real == p ==> least as real >= p
  {
  }

  /** Every amount that passes the minimum check is stored as at least `minTopUp`. */
  ghost predicate MinimumHolds(c: Config)
    requires GetMinTopup(c).Ok?
  {
    forall amount | LeastAmount(c) <= amount <= MAX_INT64 && NormalizeEpayAmount(c, amount).Ok? ::
      NormalizeEpayAmount(c, amount).value >= c.minTopUp
  }

  /** The minimum survives normalisation exactly in currency mode, or when the least
      admissible amount, up to rounding, is worth `minTopUp` currency units. */
  lemma MinimumHoldsIff(c: Config)
    requires GetMinTopup(c).Ok? && c.minTopUp <= MAX_INT64
    ensures MinimumHolds(c) <==>
            !c.tokens || LeastAmount(c) as real + Slack(c.quotaPerUnit) >= c.minTopUp as real * c.quotaPerUnit
  {
    if c.tokens {
      TokenMinimumIff(c);
    } else {
      MinimumIs(c, c.minTopUp as real);
    }
  }

  lemma TokenMinimumIff(c: Config)
    requires c.tokens && GetMinTopup(c).Ok? && c.minTopUp <= MAX_INT64
    ensures MinimumHolds(c) <==> LeastAmount(c) as real + Slack(c.quotaPerUnit) >= c.minTopUp as real * c.quotaPerUnit
  {
    var p := c.minTopUp as real * c.quotaPerUnit;
    LeastAmountBounds(c, p);
    if LeastAmount(c) as real + Slack(c.quotaPerUnit) >= p {
      forall amount | LeastAmount(c) <= amount <= MAX_INT64 && NormalizeEpayAmount(c, amount).Ok?
        ensures NormalizeEpayAmount(c, amount).value >= c.minTopUp
      {
        DearerIsEnough(c, LeastAmount(c), amount, p);
      }
    } else {
      CheaperIsNot(c, LeastAmount(c), p);
    }
  }

  lemma DearerIsEnough(c: Config, least: int, amount: int, p: real)
    requires c.tokens && c.quotaPerUnit > 0.0 && 0 < least <= amount && p == c.minTopUp as real * c.quotaPerUnit
    requires least as real + Slack(c.quotaPerUnit) >= p && NormalizeEpayAmount(c, amount).Ok?
    ensures NormalizeEpayAmount(c, amount).value >= c.minTopUp
  {
    NormalisesTo(c, amount, c.minTopUp, p);
  }

  lemma CheaperIsNot(c: Config, least: int, p: real)
    requires c.tokens && c.quotaPerUnit > 0.0 && 0 < least && p == c.minTopUp as real * c.quotaPerUnit
    requires c.minTopUp <= MAX_INT64 && least as real + Slack(c.quotaPerUnit) < p
    ensures NormalizeEpayAmount(c, least).Ok? && NormalizeEpayAmount(c, least).value < c.minTopUp
  {
    NormalisesTo(c, least, c.minTopUp, p);
  }

  /** An integral quota per unit always keeps the minimum. */
  lemma IntegralUnitKeepsMinimum(c: Config, q: int)
    requires GetMinTopup(c).Ok? && c.minTopUp <= MAX_INT64 && c.quotaPerUnit == q as real
    ensures MinimumHolds(c)
  {
    if c.tokens {
      var p := c.minTopUp as real * c.quotaPerUnit;
      assert p == (c.minTopUp * q) as real;
      assert Slack(c.quotaPerUnit) >= 0.0;
      LeastAmountBounds(c, p);
    }
    MinimumHoldsIff(c);
  }

  /** Any unit loses at most `k` where `k` currency units are worth at least one quota
      unit; so a fractional unit of at least one loses at most one. */
  lemma ShortfallIsBounded(c: Config, k: nat, amount: int)
    requires GetMinTopup(c).Ok? && k as real * c.quotaPerUnit >= 1.0
    requires LeastAmount(c) <= amount <= MAX_INT64 && NormalizeEpayAmount(c, amount).Ok?
    ensures NormalizeEpayAmount(c, amount).value >= c.minTopUp - k
  {
    if c.tokens {
      TokenShortfall(c, k, amount);
    } else {
      MinimumIs(c, c.minTopUp as real);
    }
  }

  lemma TokenShortfall(c: Config, k: nat, amount: int)
    requires c.tokens && GetMinTopup(c).Ok? && k as real * c.quotaPerUnit >= 1.0
    requires LeastAmount(c) <= amount <= MAX_INT64 && NormalizeEpayAmount(c, amount).Ok?
    ensures NormalizeEpayAmount(c, amount).value >= c.minTopUp - k
  {
    var p, loss := c.minTopUp as real * c.quotaPerUnit, k as real * c.quotaPerUnit;
    LeastAmountBounds(c, p);
    Distribute(c.minTopUp as real, k as real, c.quotaPerUnit);
    NormalisesTo(c, amount, c.minTopUp - k, p - loss);
  }

  lemma Distribute(a: real, b: real, q: real)
    ensures (a - b) * q == a * q - b * q
    ensures q >= 0.0 ==> Slack(q) >= 0.0
  {
  }

  /** In currency mode normalisation changes nothing, and from one quota unit upwards it
      never overflows in token mode either. */
  lemma NormalisationSucceeds(c: Config, amount: int)
    requires 0 < amount <= MAX_INT64
    ensures !c.tokens && c.quotaPerUnit > 0.0 ==> NormalizeEpayAmount(c, amount) == Ok(amount)
    ensures c.quotaPerUnit >= 1.0 ==> NormalizeEpayAmount(c, amount).Ok? && 0 <= NormalizeEpayAmount(c, amount).value <= amount
  {
    if c.tokens && c.quotaPerUnit >= 1.0 {
      TokensDoNotOverflow(c, amount);
    }
  }

  lemma TokensDoNotOverflow(c: Config, amount: int)
    requires c.tokens && c.quotaPerUnit >= 1.0 && 0 < amount <= MAX_INT64
    ensures NormalizeEpayAmount(c, amount).Ok? && 0 <= NormalizeEpayAmount(c, amount).value <= amount
  {
    var q, a := c.quotaPerUnit, amount as real;
    assert (amount + 1) as real * q == a * q + q;
    assert a * q >= a;
    assert Slack(q) < q;
    NormalisesTo(c, amount, amount + 1, a * q + q);
  }

  /** The bound is reached: one and a half quota units per currency unit, minimum one. */
  lemma FractionalUnitLosesOne()
    ensures var c := Config(1.5, 1, true, 1000);
            GetMinTopup(c) == Ok(1) && NormalizeEpayAmount(c, 1) == Ok(0)
  {
    assert 1.0 / 1.5 * PLACES + 0.5 < PLACES;
    assert 1.0 / 1.5 * PLACES + 0.5 >= 0.0;
  }
}
