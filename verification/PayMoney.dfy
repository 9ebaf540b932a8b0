/**
  What a top-up costs: the price rounded up to whole cents, plus a percentage
  service fee, again rounded up.  Amounts are exact decimals.
*/
module PayMoney {

  function Ceil(x: real): int {
    -((-x).Floor)
  }

  /** `n` hundredths */
  function Cents(n: int): real {
    n as real / 100.0
  }

  /** RoundCeil(2): up to whole cents */
  function RoundCeil2(x: real): real {
    Cents(Ceil(x * 100.0))
  }

  /** Round(2): to the nearest cent, halves away from zero */
  function Round2(x: real): real {
    if x >= 0.0 then Cents((x * 100.0 + 0.5).Floor) else -Cents((-x * 100.0 + 0.5).Floor)
  }

  datatype Breakdown = Breakdown(effective: real, fee: real, total: real)

  /** normalizeServiceFeePercent, on finite percentages */
  function NormalizePercent(percent: real): real {
    if percent < 0.0 then 0.0 else percent
  }

  function WithFee(amount: real, percent: real): real {
    amount * (1.0 + percent / 100.0)
  }

  /** buildPayMoneyBreakdown */
  function Build(price: real, serviceFeePercent: real): Breakdown {
    var rounded := RoundCeil2(price);
    var effective := if rounded < 0.0 then 0.0 else rounded;
    var percent := NormalizePercent(serviceFeePercent);
    var total := if percent > 0.0 then RoundCeil2(WithFee(effective, percent)) else effective;
    var fee := Round2(total - effective);
    Breakdown(effective, if fee < 0.0 then 0.0 else fee, total)
  }

  /** payMoneyYuanToFen */
  function Fen(money: real): int {
    Ceil(money * 100.0)
  }

  /** To the nearest cent. */
  lemma Round2IsNearest(x: real)
    ensures x - 0.005 <= Round2(x) <= x + 0.005
  {
  }

  lemma CeilOfCents(n: int)
    ensures Ceil(Cents(n) * 100.0) == n
    ensures n >= 0 ==> Round2(Cents(n)) == Cents(n)
  {
    assert Cents(n) * 100.0 == n as real;
    if n >= 0 {
      assert (n as real + 0.5).Floor == n;
    }
  }

  lemma RoundCeil2Bounds(x: real)
    ensures x <= RoundCeil2(x) < x + 0.01
  {
  }

  lemma CeilIsLeast(y: real, n: int)
    ensures y <= n as real <==> Ceil(y) <= n
  {
  }

  lemma CentsOrder(m: int, n: int)
    ensures Cents(m) <= Cents(n) <==> m <= n
  {
  }

  lemma Scaled(x: real, y: real, n: int)
    requires y == x * 100.0
    ensures x <= Cents(n) <==> y <= n as real
  {
  }

  /** The least whole number of cents not below `x`. */
  lemma RoundCeil2IsLeast(x: real, n: int)
    ensures x <= Cents(n) <==> RoundCeil2(x) <= Cents(n)
  {
    var y := x * 100.0;
    Scaled(x, y, n);
    CeilIsLeast(y, n);
    CentsOrder(Ceil(y), n);
  }

  lemma RoundCeil2Monotone(x: real, y: real)
    requires x <= y
    ensures RoundCeil2(x) <= RoundCeil2(y)
  {
    RoundCeil2Bounds(y);
    RoundCeil2IsLeast(x, Ceil(y * 100.0));
  }

  lemma WithFeeMonotone(x: real, x': real, p: real, p': real)
    requires 0.0 <= x <= x' && 0.0 <= p <= p'
    ensures WithFee(x, p) <= WithFee(x', p')
  {
    var q, q' := 1.0 + p / 100.0, 1.0 + p' / 100.0;
    assert q <= q';
    assert x * q <= x * q';
    assert x * q' <= x' * q';
  }

  lemma WithoutFee(x: real)
    ensures WithFee(x, 0.0) == x
  {
  }

  /** The effective amount in cents. */
  function EffectiveCents(price: real): nat {
    var n := Ceil(price * 100.0);
    if n < 0 then 0 else n
  }

  /** The total in cents, with or without a fee. */
  function TotalCents(price: real, percent: real): int {
    Ceil(WithFee(Cents(EffectiveCents(price)), NormalizePercent(percent)) * 100.0)
  }

  lemma TotalNotBelowEffective(price: real, percent: real)
    ensures TotalCents(price, percent) >= EffectiveCents(price)
  {
    var n, p := EffectiveCents(price), NormalizePercent(percent);
    var fee := WithFee(Cents(n), p);
    assert Cents(n) <= fee by {
      WithFeeMonotone(Cents(n), Cents(n), 0.0, p);
      WithoutFee(Cents(n));
    }
    RoundCeil2Bounds(fee);
    assert Cents(n) <= Cents(Ceil(fee * 100.0));
  }

  lemma BuildInCents(price: real, percent: real)
    ensures var e, t := EffectiveCents(price), TotalCents(price, percent);
            Build(price, percent) == Breakdown(Cents(e), Cents(t - e), Cents(t)) && e <= t
  {
    var e, t := EffectiveCents(price), TotalCents(price, percent);
    TotalNotBelowEffective(price, percent);
    CeilOfCents(e);
    CeilOfCents(t - e);
    assert Cents(t) - Cents(e) == Cents(t - e);
    WithoutFee(Cents(e));
  }

  /**
    For every price and percentage the parts add up, every part is a whole,
    non-negative number of cents, and the effective amount and the total are
    the least such amounts that cover the price and the price with the fee.
   */
  lemma BreakdownIsExact(price: real, percent: real, n: nat)
    ensures var b := Build(price, percent);
            && b.effective + b.fee == b.total && 0.0 <= b.effective && 0.0 <= b.fee
            && b.effective == Fen(b.effective) as real / 100.0 && b.fee == Fen(b.fee) as real / 100.0
            && b.total == Fen(b.total) as real / 100.0
            && (b.effective <= n as real / 100.0 <==> price <= n as real / 100.0)
            && (b.total <= n as real / 100.0
                <==> b.effective * (1.0 + (if percent < 0.0 then 0.0 else percent) / 100.0) <= n as real / 100.0)
  {
    var b, e, t := Build(price, percent), EffectiveCents(price), TotalCents(price, percent);
    BuildInCents(price, percent);
    CeilOfCents(e);
    CeilOfCents(t);
    CeilOfCents(t - e);
    RoundCeil2IsLeast(price, n);
    RoundCeil2IsLeast(WithFee(Cents(e), NormalizePercent(percent)), n);
  }

  /** Dearer or more heavily charged never costs less. */
  lemma BreakdownIsMonotone(price: real, price': real, percent: real, percent': real)
    requires price <= price' && percent <= percent'
    ensures Build(price, percent).effective <= Build(price', percent').effective
    ensures Build(price, percent).total <= Build(price', percent').total
  {
    var e, e' := EffectiveCents(price), EffectiveCents(price');
    BuildInCents(price, percent);
    BuildInCents(price', percent');
    RoundCeil2Monotone(price, price');
    var p, p' := NormalizePercent(percent), NormalizePercent(percent');
    WithFeeMonotone(Cents(e), Cents(e'), p, p');
    RoundCeil2Monotone(WithFee(Cents(e), p), WithFee(Cents(e'), p'));
  }

  /** Charging the parts separately in fen charges the total, and nothing is lost in the conversion. */
  lemma FenAddsUp(price: real, percent: real)
    ensures var b := Build(price, percent);
            Fen(b.total) == Fen(b.effective) + Fen(b.fee) && Cents(Fen(b.total)) == b.total
  {
    var e, t := EffectiveCents(price), TotalCents(price, percent);
    BuildInCents(price, percent);
    CeilOfCents(e);
    CeilOfCents(t);
    CeilOfCents(t - e);
  }
}
