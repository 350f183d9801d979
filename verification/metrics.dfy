/** `computeMetrics` and the auditor's totals: per-row figures read with
    `toNumber`, the four guarded ratios, and column sums. Numbers are exact
    reals. */
module Metrics {
  import opened Wrappers
  import opened Seqs
  import opened Csv
  import opened Numbers

  /** A record with its five figures and four ratios; the record's other
      cells (campaign, ad) stay reachable through `row`. */
  datatype Metric = Metric(
    row: Row,
    impressions: real, clicks: real, spend: real, conversions: real, revenue: real,
    ctr: real, cpc: real, cpa: real, roas: real)
  {
    function Ad(): Option<string> { Field(row, "Ad") }
    function Campaign(): Option<string> { Field(row, "Campaign") }
  }

  /** `den ? num / den : 0`: a zero denominator gives 0 instead of dividing. */
  function Ratio(num: real, den: real): (r: real)
    ensures den == 0.0 ==> r == 0.0
    ensures den != 0.0 ==> r * den == num
  {
    if den != 0.0 then num / den else 0.0
  }

  /** `den ? (num / den) * 100 : 0`, the click-through rate as a percentage. */
  function Percent(num: real, den: real): (r: real)
    ensures den == 0.0 ==> r == 0.0
    ensures den != 0.0 ==> r * den == num * 100.0
  {
    var q := Ratio(num, den);
    assert q * 100.0 * den == (q * den) * 100.0;
    q * 100.0
  }

  /** The spread record with the five figures and the four ratios between
      them: each ratio is 0 when its denominator is 0, and otherwise undoes
      the division. CTR is a percentage of impressions, CPC and CPA are spend
      per click and per conversion, ROAS is revenue per unit of spend. */
  function WithRatios(row: Row, impressions: real, clicks: real, spend: real, conversions: real, revenue: real): (m: Metric)
    ensures m.row == row
    ensures Contribution(m) == Totals(impressions, clicks, spend, conversions, revenue)
    ensures impressions == 0.0 ==> m.ctr == 0.0
    ensures impressions != 0.0 ==> m.ctr * impressions == clicks * 100.0
    ensures clicks == 0.0 ==> m.cpc == 0.0
    ensures clicks != 0.0 ==> m.cpc * clicks == spend
    ensures conversions == 0.0 ==> m.cpa == 0.0
    ensures conversions != 0.0 ==> m.cpa * conversions == spend
    ensures spend == 0.0 ==> m.roas == 0.0
    ensures spend != 0.0 ==> m.roas * spend == revenue
    ensures RatiosHold(m)
  {
    var ctr := Percent(clicks, impressions);
    var cpc := Ratio(spend, clicks);
    var cpa := Ratio(spend, conversions);
    var roas := Ratio(revenue, spend);
    Metric(row, impressions, clicks, spend, conversions, revenue, ctr, cpc, cpa, roas)
  }

  /** The four ratios of a metric agree with its own figures: each is 0 when
      its denominator is 0 and otherwise undoes the division. */
  predicate RatiosHold(m: Metric) {
    && (m.impressions == 0.0 ==> m.ctr == 0.0)
    && (m.impressions != 0.0 ==> m.ctr * m.impressions == m.clicks * 100.0)
    && (m.clicks == 0.0 ==> m.cpc == 0.0)
    && (m.clicks != 0.0 ==> m.cpc * m.clicks == m.spend)
    && (m.conversions == 0.0 ==> m.cpa == 0.0)
    && (m.conversions != 0.0 ==> m.cpa * m.conversions == m.spend)
    && (m.spend == 0.0 ==> m.roas == 0.0)
    && (m.spend != 0.0 ==> m.roas * m.spend == m.revenue)
  }

  /** The metric of one record: its five figures read with `toNumber`, and
      the guarded ratios between them. */
  function MetricOf(row: Row): (m: Metric)
    ensures m.row == row
    ensures RatiosHold(m)
    ensures Contribution(m) == Totals(
      ToNumber(Field(row, "Impressions")), ToNumber(Field(row, "Clicks")), ToNumber(Field(row, "Spend")),
      ToNumber(Field(row, "Conversions")), ToNumber(Field(row, "Revenue")))
  {
    WithRatios(row,
      ToNumber(Field(row, "Impressions")), ToNumber(Field(row, "Clicks")), ToNumber(Field(row, "Spend")),
      ToNumber(Field(row, "Conversions")), ToNumber(Field(row, "Revenue")))
  }

  /** `computeMetrics`: one metric per record, in the same order. */
  function ComputeMetrics(rows: seq<Row>): (ms: seq<Metric>)
    ensures |ms| == |rows|
    ensures forall i :: 0 <= i < |rows| ==> ms[i].row == rows[i] && RatiosHold(ms[i])
  {
    Map(MetricOf, rows)
  }

  /** The five summed columns. */
  datatype Totals = Totals(impressions: real, clicks: real, spend: real, conversions: real, revenue: real)
  {
    function Plus(o: Totals): Totals {
      Totals(impressions + o.impressions, clicks + o.clicks, spend + o.spend,
        conversions + o.conversions, revenue + o.revenue)
    }

    predicate NonNegative() {
      impressions >= 0.0 && clicks >= 0.0 && spend >= 0.0 && conversions >= 0.0 && revenue >= 0.0
    }
  }

  const Zero: Totals := Totals(0.0, 0.0, 0.0, 0.0, 0.0)

  /** What one metric adds to the totals. */
  function Contribution(m: Metric): Totals {
    Totals(m.impressions, m.clicks, m.spend, m.conversions, m.revenue)
  }

  /** `metrics.reduce(..., zeros)`: a left fold adding each metric's figures.
      Figures that are never negative total to figures that are never
      negative. */
  function TotalsOf(ms: seq<Metric>): (t: Totals)
    ensures (forall i :: 0 <= i < |ms| ==> Contribution(ms[i]).NonNegative()) ==> t.NonNegative()
    decreases |ms|
  {
    if ms == [] then Zero else TotalsOf(ms[..|ms| - 1]).Plus(Contribution(ms[|ms| - 1]))
  }

  /** The totals of two runs of metrics placed end to end are the sum of
      their totals. */
  lemma {:induction false} TotalsAppend(a: seq<Metric>, b: seq<Metric>)
    ensures TotalsOf(a + b) == TotalsOf(a).Plus(TotalsOf(b))
    decreases |b|
  {
    if b == [] {
      assert a + b == a;
    } else {
      var n := |b| - 1;
      assert (a + b)[..|a + b| - 1] == a + b[..n];
      TotalsAppend(a, b[..n]);
    }
  }

  /** No metrics total zero, and one metric totals its own figures. */
  lemma TotalsBase(m: Metric)
    ensures TotalsOf([]) == Zero
    ensures TotalsOf([m]) == Contribution(m)
  {
    assert [m][..0] == [];
  }
}
