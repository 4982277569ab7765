/**
 * The metric selector: the number one billing row contributes for a chosen metric.
 * Text-to-number conversion is Python's `float(...)`, which this model does not
 * define; it is passed in as a partial parse (`None` where `float` would raise).
 */
module Metric {
  import opened Options

  /** One record of the billing CSV: column header to field text; absent columns are absent keys. */
  type Row = map<string, string>

  /** A partial parse of decimal text, `None` where conversion fails. */
  type NumberParser = string -> Option<real>

  const UnblendedCostMetric := "unblendedcost"
  const UnblendedRateCalcMetric := "UnblendedRateCalc"
  const PublicOnDemandCostMetric := "pricing/publicOnDemandCost"
  const AmortizedCostMetric := "AmortizedCost"
  const BlendedCostMetric := "BlendedCost"

  /**
   * The columns each recognised metric reads; the metric's value is the product
   * of their amounts. Unrecognised metrics read no column.
   */
  function MetricFields(metricName: string): seq<string> {
    if metricName == UnblendedCostMetric then ["lineItem/UnblendedCost"]
    else if metricName == UnblendedRateCalcMetric then ["lineItem/UsageAmount", "lineItem/UnblendedRate"]
    else if metricName == PublicOnDemandCostMetric then ["pricing/publicOnDemandCost"]
    else if metricName == AmortizedCostMetric then ["lineItem/AmortizedCost"]
    else if metricName == BlendedCostMetric then ["lineItem/BlendedCost"]
    else []
  }

  /**
   * `float(row.get(field, 0) or 0)`: a missing or empty field falls back to 0,
   * anything else is parsed; `None` stands for the exception the parse raises.
   */
  function FieldAmount(row: Row, field: string, parse: NumberParser): Option<real> {
    if field !in row || row[field] == "" then Some(0.0)
    else parse(row[field])
  }

  /** The value of `row` under `metricName`; every failure reads as 0. */
  function GetMetricValue(row: Row, metricName: string, parse: NumberParser): (v: real)
    ensures MetricFields(metricName) == [] ==> v == 0.0
    ensures (exists i :: 0 <= i < |MetricFields(metricName)|
                         && FieldAmount(row, MetricFields(metricName)[i], parse).None?) ==> v == 0.0
    ensures |MetricFields(metricName)| == 1
            && FieldAmount(row, MetricFields(metricName)[0], parse).Some?
            ==> v == FieldAmount(row, MetricFields(metricName)[0], parse).value
    ensures |MetricFields(metricName)| == 2
            && FieldAmount(row, MetricFields(metricName)[0], parse).Some?
            && FieldAmount(row, MetricFields(metricName)[1], parse).Some?
            ==> v == FieldAmount(row, MetricFields(metricName)[0], parse).value
                     * FieldAmount(row, MetricFields(metricName)[1], parse).value
  {
    if metricName == UnblendedCostMetric then
      AmountOrZero(FieldAmount(row, "lineItem/UnblendedCost", parse))
    else if metricName == UnblendedRateCalcMetric then
      match FieldAmount(row, "lineItem/UsageAmount", parse)
      case None => 0.0
      case Some(usage) =>
        match FieldAmount(row, "lineItem/UnblendedRate", parse)
        case None => 0.0
        case Some(rate) => usage * rate
    else if metricName == PublicOnDemandCostMetric then
      AmountOrZero(FieldAmount(row, "pricing/publicOnDemandCost", parse))
    else if metricName == AmortizedCostMetric then
      AmountOrZero(FieldAmount(row, "lineItem/AmortizedCost", parse))
    else if metricName == BlendedCostMetric then
      AmountOrZero(FieldAmount(row, "lineItem/BlendedCost", parse))
    else 0.0
  }

  /** The `except Exception: return 0.0` fallback. */
  function AmountOrZero(a: Option<real>): real {
    match a
    case None => 0.0
    case Some(x) => x
  }

  /** A recognised metric whose column (either column, for the rate product) is missing or empty adds 0. */
  lemma MissingFieldGivesZero(row: Row, metricName: string, parse: NumberParser, i: nat)
    requires i < |MetricFields(metricName)|
    requires MetricFields(metricName)[i] !in row || row[MetricFields(metricName)[i]] == ""
    ensures GetMetricValue(row, metricName, parse) == 0.0
  {
    var fs := MetricFields(metricName);
    if |fs| == 2 && FieldAmount(row, fs[0], parse).Some? && FieldAmount(row, fs[1], parse).Some? {
      assert FieldAmount(row, fs[i], parse).value == 0.0;
    }
  }
}
