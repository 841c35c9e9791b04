/** The profitability certificate: what a certified report says about removing any trade or scout. */
module Certification {

  const Z := 1.959963984540054

  datatype Trade = Trade(scout: string, token: string, pnl: real, navReturn: real, hit: bool)
  datatype Config = Config(minTrades: nat, breakEven: real)

  /** None is an infinite profit factor. */
  datatype Factor = Infinite | Ratio(value: real)

  datatype Blocker =
    | TooFewTrades | TooFewTokens | PnlNotPositive | GrowthNotPositive | FactorNotAboveOne
    | BoundNotAboveBreakEven | DependsOnBestTrade | DependsOnBestScout

  datatype Report = Report(certified: bool, hitRate: real, wilson: real, total: real, factor: Factor, growth: real,
                           exBestTrade: real, exBestScout: real, blockers: seq<Blocker>)

  function Max(a: real, b: real): real {
    if a < b then b else a
  }

  /** math.sqrt over exact reals. */
  ghost predicate IsSqrt(sqrt: real -> real) {
    forall x | x >= 0.0 :: sqrt(x) >= 0.0 && sqrt(x) * sqrt(x) == x
  }

  function Square(x: real): real {
    x * x
  }

  function Product(x: real, y: real): real {
    x * y
  }

  function Margin(sqrt: real -> real, p: real, n: real): real
    requires n > 0.0
  {
    Z * sqrt((p * (1.0 - p) + Z * Z / (4.0 * n)) / n)
  }

  function WilsonBound(sqrt: real -> real, p: real, n: real): real
    requires n > 0.0
  {
    var denom := 1.0 + Z * Z / n;
    var centre := p + Z * Z / (2.0 * n);
    (centre - Margin(sqrt, p, n)) / denom
  }

  /** The lower bound for n trades of which the fraction p hit. */
  function WilsonLower(sqrt: real -> real, p: real, n: nat): real {
    if n == 0 then 0.0 else Max(0.0, WilsonBound(sqrt, p, n as real))
  }

  lemma Nonneg(a: real, b: real)
    requires a >= 0.0 && b >= 0.0
    ensures a * b >= 0.0
  {
  }

  lemma SquareOrder(a: real, b: real)
    requires b >= 0.0 && Square(a) <= Square(b)
    ensures a <= b
  {
    assert Product(a - b, a + b) == Square(a) - Square(b);
    if a > b {
      Positive(a - b, a + b);
    }
  }

  lemma Positive(a: real, b: real)
    requires a > 0.0 && b > 0.0
    ensures Product(a, b) > 0.0
  {
  }

  lemma SquareOfProduct(a: real, b: real)
    ensures Square(a * b) == Square(a) * Square(b)
  {
    assert (a * b) * (a * b) == (a * a) * (b * b);
  }

  /** The margin outweighs the shift of the centre. */
  lemma MarginSuffices(p: real, k: real, t: real)
    requires 0.0 <= p <= 1.0 && k >= 0.0 && t >= 0.0 && Square(t) == k * (p * (1.0 - p)) + Square(k / 2.0)
    ensures k * (0.5 - p) <= t
  {
    var u, h := p * (1.0 - p), 0.5 - p;
    Nonneg(p, 1.0 - p);
    Nonneg(k, u);
    Nonneg(k, k);
    Nonneg(Square(k), u);
    SquareOfProduct(k, h);
    assert Square(h) == 0.25 - u;
    assert Square(k) * (0.25 - u) == Square(k) * 0.25 - Square(k) * u;
    assert Square(k / 2.0) == Square(k) * 0.25;
    SquareOrder(k * h, t);
  }

  lemma DivideBound(a: real, d: real, p: real)
    requires d > 0.0 && a <= p * d
    ensures a / d <= p
  {
    var q := a / d;
    assert q * d == a;
    assert Product(q - p, d) == a - p * d;
    if q > p {
      Positive(q - p, d);
    }
  }

  lemma MarginSquare(sqrt: real -> real, p: real, n: real)
    requires IsSqrt(sqrt) && 0.0 <= p <= 1.0 && n > 0.0
    ensures var k := Z * Z / n;
      && k > 0.0 && Z * Z / (2.0 * n) == k / 2.0 && Margin(sqrt, p, n) >= 0.0
      && Square(Margin(sqrt, p, n)) == k * (p * (1.0 - p)) + Square(k / 2.0)
  {
    var k, u := Z * Z / n, p * (1.0 - p);
    Nonneg(p, 1.0 - p);
    assert Z * Z / (4.0 * n) == k / 4.0;
    var x := (u + k / 4.0) / n;
    assert x >= 0.0;
    var r := sqrt(x);
    Nonneg(Z, r);
    SquareOfProduct(Z, r);
    assert (Z * Z) * x == k * (u + k / 4.0);
    assert k * (u + k / 4.0) == k * u + (k / 2.0) * (k / 2.0);
  }

  lemma BoundBelowRate(p: real, k: real, margin: real)
    requires 0.0 <= p <= 1.0 && k > 0.0 && margin >= 0.0
    requires Square(margin) == k * (p * (1.0 - p)) + Square(k / 2.0)
    ensures (p + k / 2.0 - margin) / (1.0 + k) <= p
  {
    MarginSuffices(p, k, margin);
    assert k * (0.5 - p) == k / 2.0 - p * k;
    assert p * (1.0 + k) == p + p * k;
    DivideBound(p + k / 2.0 - margin, 1.0 + k, p);
  }

  lemma WilsonBelowRate(sqrt: real -> real, p: real, n: real)
    requires IsSqrt(sqrt) && 0.0 <= p <= 1.0 && n > 0.0
    ensures WilsonBound(sqrt, p, n) <= p
  {
    MarginSquare(sqrt, p, n);
    BoundBelowRate(p, Z * Z / n, Margin(sqrt, p, n));
  }

  /** The bound lies between zero and the hit rate. */
  lemma WilsonInRange(sqrt: real -> real, p: real, n: nat)
    requires IsSqrt(sqrt) && 0.0 <= p <= 1.0
    ensures 0.0 <= WilsonLower(sqrt, p, n) <= p
  {
    hide WilsonBound, Margin;
    if n > 0 {
      WilsonBelowRate(sqrt, p, n as real);
    }
  }

  lemma Cancel(a: real, b: real, d: real)
    requires d > 0.0 && Product(d, a) == Product(d, b)
    ensures a == b
  {
    assert Product(d, a - b) == 0.0;
    if a > b {
      Positive(d, a - b);
    } else if a < b {
      assert Product(d, b - a) == 0.0;
      Positive(d, b - a);
    }
  }

  lemma SquareOfSum(a: real, b: real)
    ensures Square(a + b) == Square(a) + 2.0 * Product(a, b) + Square(b)
  {
  }

  /** p (1 - p) around q = p - u. */
  lemma VarianceAround(p: real, q: real)
    ensures Product(p, 1.0 - p) == Product(q, 1.0 - q) + 2.0 * Product(p - q, 0.5 - q) - Square(p - q)
  {
  }

  lemma Scale(k: real, u: real, h: real)
    ensures Product(u, k * h) == k * Product(u, h) && Square(k * h) == Square(k) * Square(h)
  {
    SquareOfProduct(k, h);
  }

  /** The bound solves the equation of the score test. */
  lemma ScoreRoot(p: real, q: real, k: real, margin: real)
    requires k > 0.0 && Product(q, 1.0 + k) == p + k / 2.0 - margin
    requires Square(margin) == k * (p * (1.0 - p)) + Square(k / 2.0)
    ensures Square(p - q) == k * Product(q, 1.0 - q)
  {
    var u, h, r, a := p - q, 0.5 - q, Product(q, 1.0 - q), Square(p - q);
    assert Product(q, 1.0 + k) == q + q * k;
    assert k * h == k / 2.0 - q * k;
    assert margin == u + k * h;
    SquareOfSum(u, k * h);
    Scale(k, u, h);
    VarianceAround(p, q);
    Weigh(k, u, h, r, a, Square(margin));
  }

  lemma Weigh(k: real, u: real, h: real, r: real, a: real, square: real)
    requires k > 0.0 && h * h == 0.25 - r
    requires square == a + 2.0 * (k * Product(u, h)) + Square(k) * Square(h)
    requires square == k * (r + 2.0 * Product(u, h) - a) + Square(k / 2.0)
    ensures a == k * r
  {
    var kk, x := Square(k), Product(u, h);
    assert Square(k) * Square(h) == kk * (0.25 - r);
    assert kk * (0.25 - r) == kk * 0.25 - kk * r;
    assert Square(k / 2.0) == kk * 0.25;
    assert k * (r + 2.0 * x - a) == k * r + 2.0 * (k * x) - k * a;
    assert a + k * a == k * r + kk * r;
    assert Product(1.0 + k, a) == a + k * a;
    assert kk * r == k * (k * r);
    assert Product(1.0 + k, k * r) == k * r + k * (k * r);
    Cancel(a, k * r, 1.0 + k);
  }

  lemma DeviationOf(sqrt: real -> real, d: real, u: real, n: real)
    requires IsSqrt(sqrt) && d >= 0.0 && u >= 0.0 && n > 0.0 && Square(d) == Z * Z / n * u
    ensures d == Z * sqrt(u / n)
  {
    var r := sqrt(u / n);
    assert u / n >= 0.0;
    SquareOfProduct(Z, r);
    assert Z * Z / n * u == Z * Z * (u / n);
    SquareOrder(d, Z * r);
    SquareOrder(Z * r, d);
  }

  /** A positive bound q is the rate from which the observed p deviates by exactly Z standard deviations of n trials. */
  lemma WilsonIsScore(sqrt: real -> real, p: real, n: nat)
    requires IsSqrt(sqrt) && 0.0 <= p <= 1.0 && WilsonLower(sqrt, p, n) > 0.0
    ensures var q := WilsonLower(sqrt, p, n); n > 0 && p - q == Z * sqrt(Product(q, 1.0 - q) / n as real)
  {
    hide Product, WilsonBound, Margin, IsSqrt;
    BoundIsScore(sqrt, p, n as real);
  }

  lemma BoundIsScore(sqrt: real -> real, p: real, n: real)
    requires IsSqrt(sqrt) && 0.0 <= p <= 1.0 && n > 0.0 && WilsonBound(sqrt, p, n) > 0.0
    ensures var q := WilsonBound(sqrt, p, n); p - q == Z * sqrt(Product(q, 1.0 - q) / n)
  {
    hide IsSqrt;
    var q, k, margin := WilsonBound(sqrt, p, n), Z * Z / n, Margin(sqrt, p, n);
    WilsonBelowRate(sqrt, p, n);
    MarginSquare(sqrt, p, n);
    BoundTimes(p + k / 2.0 - margin, 1.0 + k);
    ScoreRoot(p, q, k, margin);
    Nonneg(q, 1.0 - q);
    DeviationOf(sqrt, p - q, Product(q, 1.0 - q), n);
  }

  lemma PositiveFactor(a: real, b: real)
    requires b > 0.0 && Product(a, b) > 0.0
    ensures a > 0.0
  {
  }

  lemma CentreOutweighs(p: real, k: real, margin: real)
    requires 0.0 <= p && k > 0.0 && margin >= 0.0
    requires Square(margin) == k * (p * (1.0 - p)) + Square(k / 2.0)
    ensures p + k / 2.0 - margin > 0.0 <==> p > 0.0
  {
    var centre := p + k / 2.0;
    SquareOfSum(p, k / 2.0);
    assert k * (p * (1.0 - p)) == k * p - k * Square(p);
    assert Product(p, k / 2.0) == k * p / 2.0;
    assert Square(centre) - Square(margin) == Square(p) + k * Square(p);
    assert Product(centre - margin, centre + margin) == Square(centre) - Square(margin);
    if p > 0.0 {
      Positive(p, p);
      Positive(k, Square(p));
      PositiveFactor(centre - margin, centre + margin);
    } else {
      assert Square(p) == 0.0;
      if centre - margin > 0.0 {
        Positive(centre - margin, centre + margin);
      }
    }
  }

  lemma PositiveQuotient(a: real, d: real)
    requires d > 0.0
    ensures a / d > 0.0 <==> a > 0.0
  {
  }

  /** The bound is positive as soon as anything hit. */
  lemma WilsonZeroIff(sqrt: real -> real, p: real, n: nat)
    requires IsSqrt(sqrt) && 0.0 <= p <= 1.0
    ensures WilsonLower(sqrt, p, n) == 0.0 <==> n == 0 || p == 0.0
  {
    hide WilsonBound, Margin;
    if n > 0 {
      BoundPositiveIff(sqrt, p, n as real);
    }
  }

  lemma BoundPositiveIff(sqrt: real -> real, p: real, n: real)
    requires IsSqrt(sqrt) && 0.0 <= p <= 1.0 && n > 0.0
    ensures WilsonBound(sqrt, p, n) > 0.0 <==> p > 0.0
  {
    var k, margin := Z * Z / n, Margin(sqrt, p, n);
    MarginSquare(sqrt, p, n);
    CentreOutweighs(p, k, margin);
    PositiveQuotient(p + k / 2.0 - margin, 1.0 + k);
  }

  lemma BoundTimes(a: real, d: real)
    requires d > 0.0
    ensures Product(a / d, d) == a
  {
  }

  // ---- the certificate ----

  function Pnl(trades: seq<Trade>): real {
    if trades == [] then 0.0 else Pnl(trades[..|trades| - 1]) + trades[|trades| - 1].pnl
  }

  function Gains(trades: seq<Trade>): real {
    if trades == [] then 0.0 else Gains(trades[..|trades| - 1]) + Max(0.0, trades[|trades| - 1].pnl)
  }

  function Losses(trades: seq<Trade>): real {
    if trades == [] then 0.0 else Losses(trades[..|trades| - 1]) + Max(0.0, -trades[|trades| - 1].pnl)
  }

  function Growth(trades: seq<Trade>): real {
    if trades == [] then 1.0 else Growth(trades[..|trades| - 1]) * (1.0 + trades[|trades| - 1].navReturn)
  }

  function Hits(trades: seq<Trade>): (h: nat)
    ensures h <= |trades|
  {
    if trades == [] then 0 else Hits(trades[..|trades| - 1]) + if trades[|trades| - 1].hit then 1 else 0
  }

  function HitRate(trades: seq<Trade>): (p: real)
    ensures 0.0 <= p <= 1.0
  {
    if trades == [] then 0.0 else Hits(trades) as real / |trades| as real
  }

  function Tokens(trades: seq<Trade>): set<string> {
    set i | 0 <= i < |trades| :: trades[i].token
  }

  function WithoutAt(trades: seq<Trade>, i: nat): seq<Trade>
    requires i < |trades|
  {
    trades[..i] + trades[i + 1..]
  }

  /** All trades except those of one scout. */
  function Without(trades: seq<Trade>, scout: string): seq<Trade> {
    if trades == [] then []
    else
      var last := trades[|trades| - 1];
      Without(trades[..|trades| - 1], scout) + if last.scout == scout then [] else [last]
  }

  function OfScout(trades: seq<Trade>, scout: string): real {
    if trades == [] then 0.0
    else
      var last := trades[|trades| - 1];
      OfScout(trades[..|trades| - 1], scout) + if last.scout == scout then last.pnl else 0.0
  }

  lemma {:induction false} RemovingTrade(trades: seq<Trade>, i: nat)
    requires i < |trades|
    ensures Pnl(WithoutAt(trades, i)) == Pnl(trades) - trades[i].pnl
  {
    var n := |trades| - 1;
    var rest := WithoutAt(trades, i);
    if i == n {
      assert rest == trades[..n];
    } else {
      RemovingTrade(trades[..n], i);
      assert rest[..n - 1] == WithoutAt(trades[..n], i);
    }
  }

  lemma {:induction false} RemovingScout(trades: seq<Trade>, scout: string)
    ensures Pnl(Without(trades, scout)) == Pnl(trades) - OfScout(trades, scout)
  {
    if trades != [] {
      var n := |trades| - 1;
      RemovingScout(trades[..n], scout);
      var front := Without(trades[..n], scout);
      assert (front + [trades[n]])[..|front|] == front;
      assert front + [] == front;
    }
  }

  lemma {:induction false} GainsMinusLosses(trades: seq<Trade>)
    ensures Pnl(trades) == Gains(trades) - Losses(trades) && Gains(trades) >= 0.0 && Losses(trades) >= 0.0
  {
    if trades != [] {
      GainsMinusLosses(trades[..|trades| - 1]);
    }
  }

  ghost predicate SurvivesTrade(trades: seq<Trade>, i: int) {
    0 <= i < |trades| ==> Pnl(WithoutAt(trades, i)) > 0.0
  }

  ghost predicate SurvivesScout(trades: seq<Trade>, scout: string) {
    Pnl(Without(trades, scout)) > 0.0
  }

  /** Net profit survives the removal of any single trade and of any single scout. */
  ghost predicate Robust(trades: seq<Trade>) {
    && Pnl(trades) > 0.0
    && (forall i :: SurvivesTrade(trades, i))
    && (forall scout :: SurvivesScout(trades, scout))
  }

  /** What certification requires, without the profit factor, which follows. */
  ghost predicate Certifiable(sqrt: real -> real, trades: seq<Trade>, c: Config) {
    && |trades| >= c.minTrades && |Tokens(trades)| >= c.minTrades && Growth(trades) - 1.0 > 0.0
    && WilsonLower(sqrt, HitRate(trades), |trades|) > c.breakEven && Robust(trades)
  }

  lemma PositivePnlMeansFactorAboveOne(gains: real, losses: real)
    requires gains >= 0.0 && losses >= 0.0
    ensures var f := if losses > 0.0 then Ratio(gains / losses) else if gains > 0.0 then Infinite else Ratio(0.0);
      gains - losses > 0.0 <==> f == Infinite || f.value > 1.0
  {
    if losses > 0.0 {
      var q := gains / losses;
      assert q * losses == gains;
      assert Product(q - 1.0, losses) == gains - losses;
      assert Product(1.0 - q, losses) == losses - gains;
      if q > 1.0 {
        Positive(q - 1.0, losses);
      } else if q < 1.0 {
        Positive(1.0 - q, losses);
      }
    }
  }

  method Sums(trades: seq<Trade>) returns (total: real, gains: real, losses: real, growth: real, hits: nat)
    ensures total == Pnl(trades) && gains == Gains(trades) && losses == Losses(trades)
    ensures growth == Growth(trades) && hits == Hits(trades)
  {
    total, gains, losses, growth, hits := 0.0, 0.0, 0.0, 1.0, 0;
    for i := 0 to |trades|
      invariant total == Pnl(trades[..i]) && gains == Gains(trades[..i]) && losses == Losses(trades[..i])
      invariant growth == Growth(trades[..i]) && hits == Hits(trades[..i])
    {
      var t := trades[i];
      assert trades[..i + 1][..i] == trades[..i];
      total, gains, losses := total + t.pnl, gains + Max(0.0, t.pnl), losses + Max(0.0, -t.pnl);
      growth, hits := growth * (1.0 + t.navReturn), hits + if t.hit then 1 else 0;
    }
    assert trades[..|trades|] == trades;
  }

  /** The largest profit of a trade, or zero if none made any. */
  ghost predicate IsBestTrade(trades: seq<Trade>, best: real) {
    && best >= 0.0 && (forall i | 0 <= i < |trades| :: trades[i].pnl <= best)
    && (best == 0.0 || exists i | 0 <= i < |trades| :: trades[i].pnl == best)
  }

  /** max(0, best trade): subtracting it decides every single removal at once. */
  method BestTrade(trades: seq<Trade>, total: real) returns (best: real)
    ensures best >= 0.0
    ensures total - best > 0.0 <==> total > 0.0 && forall i | 0 <= i < |trades| :: total - trades[i].pnl > 0.0
    ensures IsBestTrade(trades, best)
  {
    best := 0.0;
    for i := 0 to |trades|
      invariant best >= 0.0
      invariant forall j | 0 <= j < i :: trades[j].pnl <= best
      invariant best == 0.0 || exists j | 0 <= j < i :: trades[j].pnl == best
      invariant total - best > 0.0 <==> total > 0.0 && forall j | 0 <= j < i :: total - trades[j].pnl > 0.0
    {
      best := Max(best, trades[i].pnl);
    }
  }

  lemma {:induction false} ScoutStep(trades: seq<Trade>, i: nat, scout: string)
    requires i < |trades|
    ensures OfScout(trades[..i + 1], scout) ==
      OfScout(trades[..i], scout) + if trades[i].scout == scout then trades[i].pnl else 0.0
  {
    assert trades[..i + 1][..i] == trades[..i];
  }

  method ByScout(trades: seq<Trade>) returns (byScout: map<string, real>)
    ensures forall scout :: OfScout(trades, scout) == if scout in byScout then byScout[scout] else 0.0
  {
    byScout := map[];
    for i := 0 to |trades|
      invariant forall scout :: OfScout(trades[..i], scout) == if scout in byScout then byScout[scout] else 0.0
    {
      var t := trades[i];
      forall scout { ScoutStep(trades, i, scout); }
      byScout := byScout[t.scout := (if t.scout in byScout then byScout[t.scout] else 0.0) + t.pnl];
    }
    assert trades[..|trades|] == trades;
  }

  ghost predicate LeavesProfit(trades: seq<Trade>, total: real, scout: string) {
    total - OfScout(trades, scout) > 0.0
  }

  ghost predicate MadeBy(trades: seq<Trade>, scout: string, profit: real) {
    OfScout(trades, scout) == profit
  }

  /** The largest profit of a scout, or zero if none made any. */
  ghost predicate IsBestScout(trades: seq<Trade>, best: real) {
    && best >= 0.0 && (forall scout :: OfScout(trades, scout) <= best)
    && (best == 0.0 || exists scout :: MadeBy(trades, scout, best))
  }

  /** max(0, best scout): the same for every scout, also those without a trade. */
  method BestScout(trades: seq<Trade>, total: real) returns (best: real)
    ensures best >= 0.0
    ensures total - best > 0.0 <==> total > 0.0 && forall scout :: LeavesProfit(trades, total, scout)
    ensures IsBestScout(trades, best)
  {
    var byScout := ByScout(trades);
    best := 0.0;
    var rest := byScout.Keys;
    while rest != {}
      invariant rest <= byScout.Keys && best >= 0.0
      invariant forall scout | scout in byScout && scout !in rest :: byScout[scout] <= best
      invariant best == 0.0 || exists scout | scout in byScout :: byScout[scout] == best
      invariant total - best > 0.0 <==>
        total > 0.0 && forall scout | scout in byScout && scout !in rest :: total - byScout[scout] > 0.0
      decreases |rest|
    {
      var scout :| scout in rest;
      best, rest := Max(best, byScout[scout]), rest - {scout};
    }
    if best != 0.0 {
      var scout :| scout in byScout && byScout[scout] == best;
      assert MadeBy(trades, scout, best);
    }
    if total - best > 0.0 {
      forall scout ensures LeavesProfit(trades, total, scout) {
        assert scout in byScout ==> total - byScout[scout] > 0.0;
      }
    } else if total > 0.0 {
      var scout :| scout in byScout && total - byScout[scout] <= 0.0;
      assert !LeavesProfit(trades, total, scout);
    }
  }

  lemma TradesBySubtraction(trades: seq<Trade>)
    ensures (forall i :: SurvivesTrade(trades, i)) <==>
      forall i | 0 <= i < |trades| :: Pnl(trades) - trades[i].pnl > 0.0
  {
    forall i | 0 <= i < |trades| ensures SurvivesTrade(trades, i) <==> Pnl(trades) - trades[i].pnl > 0.0 {
      RemovingTrade(trades, i);
    }
  }

  lemma ScoutsBySubtraction(trades: seq<Trade>)
    ensures (forall scout :: SurvivesScout(trades, scout)) <==> forall scout :: LeavesProfit(trades, Pnl(trades), scout)
  {
    forall scout ensures SurvivesScout(trades, scout) == LeavesProfit(trades, Pnl(trades), scout) {
      RemovingScout(trades, scout);
    }
    if forall scout :: SurvivesScout(trades, scout) {
      assert forall scout :: SurvivesScout(trades, scout) ==> LeavesProfit(trades, Pnl(trades), scout);
      assert forall scout :: LeavesProfit(trades, Pnl(trades), scout);
    } else {
      var scout :| !SurvivesScout(trades, scout);
      assert !LeavesProfit(trades, Pnl(trades), scout);
    }
  }

  /** Gains over losses; infinite without losses, zero without either. */
  ghost predicate IsFactor(trades: seq<Trade>, f: Factor) {
    match f
    case Infinite => Losses(trades) == 0.0 < Gains(trades)
    case Ratio(v) =>
      if Losses(trades) > 0.0 then Product(v, Losses(trades)) == Gains(trades) else v == Gains(trades) == 0.0
  }

  lemma QuotientTimes(a: real, d: real)
    requires d > 0.0
    ensures Product(a / d, d) == a
  {
  }

  method Rate(trades: seq<Trade>, hits: nat) returns (p: real)
    requires hits == Hits(trades)
    ensures p == HitRate(trades)
  {
    p := if |trades| > 0 then hits as real / |trades| as real else 0.0;
  }

  /** A blocker is listed exactly for its own reason. */
  predicate Applies(b: Blocker, r: Report, trades: nat, tokens: nat, c: Config) {
    match b
    case TooFewTrades => trades < c.minTrades
    case TooFewTokens => tokens < c.minTrades
    case PnlNotPositive => r.total <= 0.0
    case GrowthNotPositive => r.growth <= 0.0
    case FactorNotAboveOne => r.factor.Ratio? && r.factor.value <= 1.0
    case BoundNotAboveBreakEven => r.wilson <= c.breakEven
    case DependsOnBestTrade => r.exBestTrade <= 0.0
    case DependsOnBestScout => r.exBestScout <= 0.0
  }

  method ListIf(blockers: seq<Blocker>, applies: bool, b: Blocker) returns (longer: seq<Blocker>)
    ensures forall x :: x in longer <==> x in blockers || (applies && x == b)
    ensures longer == [] <==> blockers == [] && !applies
  {
    longer := if applies then blockers + [b] else blockers;
  }

  /** The report with its blockers, certified if there are none. */
  method Judged(r: Report, trades: nat, tokens: nat, c: Config) returns (judged: Report)
    ensures judged == r.(certified := judged.blockers == [], blockers := judged.blockers)
    ensures forall b :: b in judged.blockers <==> Applies(b, judged, trades, tokens, c)
  {
    var blockers := ListIf([], trades < c.minTrades, TooFewTrades);
    blockers := ListIf(blockers, tokens < c.minTrades, TooFewTokens);
    blockers := ListIf(blockers, r.total <= 0.0, PnlNotPositive);
    blockers := ListIf(blockers, r.growth <= 0.0, GrowthNotPositive);
    blockers := ListIf(blockers, r.factor.Ratio? && r.factor.value <= 1.0, FactorNotAboveOne);
    blockers := ListIf(blockers, r.wilson <= c.breakEven, BoundNotAboveBreakEven);
    blockers := ListIf(blockers, r.exBestTrade <= 0.0, DependsOnBestTrade);
    blockers := ListIf(blockers, r.exBestScout <= 0.0, DependsOnBestScout);
    judged := r.(certified := blockers == [], blockers := blockers);
  }

  lemma NoneApplies(r: Report, trades: nat, tokens: nat, c: Config)
    requires forall b :: b in r.blockers <==> Applies(b, r, trades, tokens, c)
    ensures r.blockers == [] <==>
      && trades >= c.minTrades && tokens >= c.minTrades && r.total > 0.0 && r.growth > 0.0
      && (r.factor.Ratio? ==> r.factor.value > 1.0) && r.wilson > c.breakEven
      && r.exBestTrade > 0.0 && r.exBestScout > 0.0
  {
    if r.blockers == [] {
      assert TooFewTrades !in r.blockers && TooFewTokens !in r.blockers && PnlNotPositive !in r.blockers;
      assert GrowthNotPositive !in r.blockers && FactorNotAboveOne !in r.blockers;
      assert BoundNotAboveBreakEven !in r.blockers && DependsOnBestTrade !in r.blockers;
      assert DependsOnBestScout !in r.blockers;
    } else {
      assert r.blockers[0] in r.blockers;
    }
  }

  /** A report is certified exactly when the record is large and varied enough, grows, clears break-even
      by the Wilson bound, and stays profitable without any one trade or any one scout. */
  method Evaluate(sqrt: real -> real, trades: seq<Trade>, c: Config) returns (r: Report)
    requires IsSqrt(sqrt)
    ensures r.certified <==> Certifiable(sqrt, trades, c)
    ensures r.certified <==> r.blockers == []
    ensures r.total == Pnl(trades) && r.wilson == WilsonLower(sqrt, HitRate(trades), |trades|) && 0.0 <= r.wilson
    ensures r.wilson <= r.hitRate == HitRate(trades)
    ensures r.certified ==> r.hitRate > c.breakEven
    ensures r.growth == Growth(trades) - 1.0 && IsFactor(trades, r.factor)
    ensures IsBestTrade(trades, r.total - r.exBestTrade) && IsBestScout(trades, r.total - r.exBestScout)
    ensures forall b :: b in r.blockers <==> Applies(b, r, |trades|, |Tokens(trades)|, c)
  {
    hide WilsonLower, WilsonBound, HitRate, Losses, Gains, Pnl, OfScout, IsBestTrade, IsBestScout, Applies;
    var total, gains, losses, growth, hits := Sums(trades);
    var n := |trades|;
    var hitRate := Rate(trades, hits);
    var lower := WilsonLower(sqrt, hitRate, n);
    WilsonInRange(sqrt, hitRate, n);
    var factor := if losses > 0.0 then Ratio(gains / losses) else if gains > 0.0 then Infinite else Ratio(0.0);
    GainsMinusLosses(trades);
    if losses > 0.0 { QuotientTimes(gains, losses); }
    PositivePnlMeansFactorAboveOne(gains, losses);
    var bestTrade := BestTrade(trades, total);
    var bestScout := BestScout(trades, total);
    TradesBySubtraction(trades);
    ScoutsBySubtraction(trades);
    var tokens := |set i | 0 <= i < n :: trades[i].token|;
    var netGrowth := if n > 0 then growth - 1.0 else 0.0;
    r := Report(false, hitRate, lower, total, factor, netGrowth, total - bestTrade, total - bestScout, []);
    r := Judged(r, n, tokens, c);
    NoneApplies(r, n, tokens, c);
  }
}
