/**
 The `POST /analyze` handler of the backend's phishing routes: validate the
 body, score it, and echo the URL with the scorer's verdict.

 The `isURL` check of the validation library is not modelled; the handler
 takes it as the predicate `isUrl`. The response timestamp comes from the
 clock and is taken as the parameter `timestamp`.
 */
module Analyze {
  import opened Scorer

  /** One entry of `errors.array()`: the body field and the rule's message. */
  datatype FieldError = FieldError(path: string, msg: string)

  const UrlError: FieldError := FieldError("url", "Please provide a valid URL")
  const ContentError: FieldError := FieldError("content", "Content is required")

  /** Status 400 with the validation errors, or a successful analysis. */
  datatype Response =
    | BadRequest(errors: seq<FieldError>)
    | Analysis(url: string, timestamp: string, isPhishing: bool, confidence: nat, reasons: seq<string>)

  /** The two validation chains, run in declaration order: `url` must pass
      `isURL`, `content` must be non-empty. */
  function Validate(isUrl: string -> bool, url: string, content: string): (errors: seq<FieldError>)
    ensures UrlError in errors <==> !isUrl(url)
    ensures ContentError in errors <==> |content| == 0
    ensures forall e :: e in errors ==> e == UrlError || e == ContentError
    ensures |errors| == (if isUrl(url) then 0 else 1) + (if |content| > 0 then 0 else 1)
    ensures !isUrl(url) ==> errors[0] == UrlError
  {
    (if isUrl(url) then [] else [UrlError]) + (if |content| > 0 then [] else [ContentError])
  }

  /** The handler: any validation error answers 400 and the scorer is never
      consulted; otherwise the response echoes `url` and the timestamp and
      carries the scorer's verdict, confidence and reasons. */
  function HandleAnalyze(isUrl: string -> bool, url: string, content: string, timestamp: string): (r: Response)
    ensures r.BadRequest? <==> !isUrl(url) || |content| == 0
    ensures r.BadRequest? ==> r.errors == Validate(isUrl, url, content) && |r.errors| > 0
    ensures r.Analysis? ==>
      && r.url == url
      && r.timestamp == timestamp
      && r.isPhishing == DetectPhishing(url, content).isPhishing
      && r.confidence == DetectPhishing(url, content).confidence
      && r.reasons == DetectPhishing(url, content).reasons
  {
    var errors := Validate(isUrl, url, content);
    if |errors| > 0 then
      BadRequest(errors)
    else
      var d := DetectPhishing(url, content);
      Analysis(url, timestamp, d.isPhishing, d.confidence, d.reasons)
  }

  /** A rejected request answers the same whatever the content's keywords
      would have scored: only which fields failed matters. */
  lemma RejectionIgnoresScore(isUrl: string -> bool, url: string, content: string, content': string, t: string, t': string)
    requires !isUrl(url)
    requires |content| == 0 <==> |content'| == 0
    ensures HandleAnalyze(isUrl, url, content, t) == HandleAnalyze(isUrl, url, content', t')
  {
  }

  /** An accepted request's confidence lies in [0, 1] and its verdict agrees
      with the scorer's raw score. */
  lemma AcceptedResponseBounds(isUrl: string -> bool, url: string, content: string, t: string)
    requires isUrl(url) && |content| > 0
    ensures var r := HandleAnalyze(isUrl, url, content, t);
      && r.Analysis?
      && r.confidence <= MaxConfidence
      && (r.isPhishing <==> ExpectedTenths(url, content) >= PhishingTenths)
  {
  }
}
