/** The severity-to-colour matcher of the frontend's malware scan page. */
module ScanPage {
  import opened Palette
  import opened Text

  /** `getSeverityColor`: the lower-cased severity `high`, `medium` or `low`
      selects error, warning or info; any other string selects default. */
  function SeverityColor(severity: string): (c: ChipColor)
    ensures c == Error <==> ToLower(severity) == "high"
    ensures c == Warning <==> ToLower(severity) == "medium"
    ensures c == Info <==> ToLower(severity) == "low"
    ensures c == Default <==> ToLower(severity) !in ["high", "medium", "low"]
    ensures c != Success
  {
    var s := ToLower(severity);
    if s == "high" then Error
    else if s == "medium" then Warning
    else if s == "low" then Info
    else Default
  }

  /** The colour depends only on the lower-cased severity. */
  lemma SeverityIgnoresCase(severity: string)
    ensures SeverityColor(ToLower(severity)) == SeverityColor(severity)
  {
    ToLowerIdempotent(severity);
  }

  /** The scan fixtures' severities `High` and `Medium`, and `Low`, map to
      error, warning and info; so does an all-capitals spelling. */
  lemma FixtureSeverities()
    ensures SeverityColor("High") == Error
    ensures SeverityColor("Medium") == Warning
    ensures SeverityColor("Low") == Info
    ensures SeverityColor("HIGH") == Error
    ensures SeverityColor("Critical") == Default
  {
  }
}
