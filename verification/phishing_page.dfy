/**
 The pure parts of the frontend's phishing page: the confidence-to-colour
 classifier and the guard `analyzeUrl` runs before posting a request.
 */
module PhishingPage {
  import opened Palette
  import opened Analyze

  /** `getConfidenceColor`: 0.7 and above is an error, 0.4 and above a warning,
      anything lower a success. */
  function ConfidenceColor(confidence: real): (c: ChipColor)
    ensures c == Error <==> confidence >= 0.7
    ensures c == Warning <==> 0.4 <= confidence < 0.7
    ensures c == Success <==> confidence < 0.4
  {
    if confidence >= 0.7 then Error
    else if confidence >= 0.4 then Warning
    else Success
  }

  /** How alarming a confidence colour is: success, then warning, then error. */
  function Alarm(c: ChipColor): nat {
    match c
    case Error => 2
    case Warning => 1
    case _ => 0
  }

  /** A higher confidence never gets a less alarming colour. */
  lemma ConfidenceColorMonotone(a: real, b: real)
    requires a <= b
    ensures Alarm(ConfidenceColor(a)) <= Alarm(ConfidenceColor(b))
  {
  }

  /** The confidence of a score of `tenths`, as the page receives it. */
  function TenthsToConfidence(tenths: nat): real {
    tenths as real / 10.0
  }

  /** A score of seven tenths or more is shown as an error, four to six tenths
      as a warning, and three or fewer as a success. */
  lemma ScoreColor(tenths: nat)
    ensures ConfidenceColor(TenthsToConfidence(tenths))
         == if tenths >= 7 then Error else if tenths >= 4 then Warning else Success
  {
  }

  /** The two history fixtures (confidence 0.1 and 0.8) show as success and error. */
  lemma HistoryFixtureColors()
    ensures ConfidenceColor(0.1) == Success
    ensures ConfidenceColor(0.8) == Error
  {
  }

  /** What `analyzeUrl` does with the form: refuse locally, or post the body. */
  datatype ClientAction =
    | RejectLocally(message: string)
    | PostAnalyze(url: string, content: string)

  const EmptyUrlMessage: string := "Please enter a URL"

  /** `analyzeUrl`: an empty URL is refused with a toast and no request;
      anything else is posted as typed, content included even when empty. */
  function AnalyzeUrl(url: string, content: string): (a: ClientAction)
    ensures a.RejectLocally? <==> |url| == 0
    ensures a.RejectLocally? ==> a.message == EmptyUrlMessage
    ensures a.PostAnalyze? ==> a.url == url && a.content == content
  {
    if |url| == 0 then RejectLocally(EmptyUrlMessage) else PostAnalyze(url, content)
  }

  /** The client labels content as optional, but the server requires it: a
      form with a URL and no content passes the client guard and is rejected
      by the server with a content error. */
  lemma EmptyContentPassesClientButNotServer(isUrl: string -> bool, url: string, timestamp: string)
    requires |url| > 0
    ensures AnalyzeUrl(url, "").PostAnalyze?
    ensures var r := HandleAnalyze(isUrl, url, "", timestamp);
      r.BadRequest? && ContentError in r.errors
  {
  }

  /** The client guard never blocks a request the server would accept, as
      long as the URL check rejects the empty string. */
  lemma ClientGuardWeakerThanServer(isUrl: string -> bool, url: string, content: string, timestamp: string)
    requires !isUrl("")
    requires HandleAnalyze(isUrl, url, content, timestamp).Analysis?
    ensures AnalyzeUrl(url, content) == PostAnalyze(url, content)
  {
  }
}
