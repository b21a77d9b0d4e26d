/**
 The mock phishing scorer `detectPhishing` of the backend's phishing routes.

 Confidence is kept in integer tenths: every signal the scorer adds is a
 multiple of 0.1, so the double-precision sum of the source is modelled by
 the exact number of tenths it approximates.
 */
module Scorer {
  import opened Text

  /** The eight keywords looked for in the lower-cased content, in declaration order. */
  const SuspiciousPatterns: seq<string> :=
    ["urgent", "verify", "password", "account", "suspicious", "unusual", "login", "security"]

  /** Looked for in the URL, case-sensitively. */
  const HttpMarker: string := "http://"
  const LoginMarker: string := "login"
  const SigninMarker: string := "signin"

  const KeywordPrefix: string := "Contains suspicious word: "
  const HttpReason: string := "Uses unsecured HTTP connection"
  const LoginReason: string := "URL contains login-related keywords"

  /** Weights of the three kinds of signal, in tenths. */
  const KeywordWeight: nat := 1
  const HttpWeight: nat := 2
  const LoginWeight: nat := 1

  /** `Math.min(confidence, 1)`: the reported confidence never exceeds ten tenths. */
  const MaxConfidence: nat := 10

  /** The smallest raw score reported as phishing. The source tests
      `confidence > 0.3` on a double-precision sum; every way of reaching
      three tenths (0.1+0.1+0.1, 0.1+0.2, 0.2+0.1) sums to
      0.30000000000000004, which is above 0.3, while two tenths (0.2) is not
      and four tenths is about 0.4. */
  const PhishingTenths: nat := 3

  function KeywordReason(p: string): string {
    KeywordPrefix + p
  }

  /** The running state of the scorer: the confidence so far and the reasons pushed so far. */
  datatype Tally = Tally(tenths: nat, reasons: seq<string>)

  /** What `detectPhishing` returns; `confidence` is in tenths. */
  datatype Detection = Detection(isPhishing: bool, confidence: nat, reasons: seq<string>)

  /** One `if (...) { confidence += weight; reasons.push(reason); }` step. */
  function Signal(t: Tally, fired: bool, weight: nat, reason: string): Tally {
    if fired then Tally(t.tenths + weight, t.reasons + [reason]) else t
  }

  /** The `forEach` over the patterns: each pattern found in `lc` is one keyword signal. */
  function ScanPatterns(t: Tally, lc: string, ps: seq<string>): Tally
    decreases |ps|
  {
    if |ps| == 0 then t
    else ScanPatterns(Signal(t, Includes(lc, ps[0]), KeywordWeight, KeywordReason(ps[0])), lc, ps[1..])
  }

  /** The whole accumulation over the pattern list `ps`: keywords, then the
      HTTP check, then the login check. */
  function ScoreWith(ps: seq<string>, url: string, content: string): Tally {
    var keywords := ScanPatterns(Tally(0, []), ToLower(content), ps);
    var http := Signal(keywords, Includes(url, HttpMarker), HttpWeight, HttpReason);
    Signal(http, Includes(url, LoginMarker) || Includes(url, SigninMarker), LoginWeight, LoginReason)
  }

  function Min(a: nat, b: nat): nat {
    if a < b then a else b
  }

  // ---------------------------------------------------------------------------
  // Reference definitions: what the scorer is meant to compute, stated with
  // the substring relation `Occurs` and a filter instead of a running tally.
  // ---------------------------------------------------------------------------

  /** The patterns of `ps` that occur in `lc`, in the order of `ps`. */
  ghost function Found(lc: string, ps: seq<string>): seq<string>
    decreases |ps|
  {
    if |ps| == 0 then []
    else (if Occurs(lc, ps[0]) then [ps[0]] else []) + Found(lc, ps[1..])
  }

  /** One keyword reason per pattern, in the same order. */
  function Describe(ps: seq<string>): (r: seq<string>)
    ensures |r| == |ps|
    decreases |ps|
  {
    if |ps| == 0 then [] else [KeywordReason(ps[0])] + Describe(ps[1..])
  }

  ghost predicate HttpSignal(url: string) {
    Occurs(url, HttpMarker)
  }

  ghost predicate LoginSignal(url: string) {
    Occurs(url, LoginMarker) || Occurs(url, SigninMarker)
  }

  /** Raw tenths: one per pattern found, two for `http://`, one for `login` or `signin`. */
  ghost function TenthsWith(ps: seq<string>, url: string, content: string): nat {
    |Found(ToLower(content), ps)|
      + (if HttpSignal(url) then HttpWeight else 0)
      + (if LoginSignal(url) then LoginWeight else 0)
  }

  /** Keyword reasons in pattern order, then the HTTP reason, then the login reason. */
  ghost function ReasonsWith(ps: seq<string>, url: string, content: string): seq<string> {
    Describe(Found(ToLower(content), ps))
      + (if HttpSignal(url) then [HttpReason] else [])
      + (if LoginSignal(url) then [LoginReason] else [])
  }

  ghost function ExpectedTenths(url: string, content: string): nat {
    TenthsWith(SuspiciousPatterns, url, content)
  }

  ghost function ExpectedReasons(url: string, content: string): seq<string> {
    ReasonsWith(SuspiciousPatterns, url, content)
  }

  predicate Distinct(ps: seq<string>) {
    forall i, j :: 0 <= i < j < |ps| ==> ps[i] != ps[j]
  }

  /** `xs` can be obtained from `ys` by deleting elements, keeping the rest in order. */
  predicate Subsequence(xs: seq<string>, ys: seq<string>)
    decreases |ys|
  {
    if |xs| == 0 then true
    else if |ys| == 0 then false
    else (xs[0] == ys[0] && Subsequence(xs[1..], ys[1..])) || Subsequence(xs, ys[1..])
  }

  // ---------------------------------------------------------------------------
  // The scan of the patterns
  // ---------------------------------------------------------------------------

  /** The `forEach` adds exactly the patterns found, one tenth and one reason each, in pattern order. */
  lemma {:induction false} ScanPatternsFindsPatterns(t: Tally, lc: string, ps: seq<string>)
    ensures ScanPatterns(t, lc, ps)
         == Tally(t.tenths + |Found(lc, ps)|, t.reasons + Describe(Found(lc, ps)))
    decreases |ps|
  {
    if |ps| > 0 {
      var t' := Signal(t, Includes(lc, ps[0]), KeywordWeight, KeywordReason(ps[0]));
      ScanPatternsFindsPatterns(t', lc, ps[1..]);
      var f := Found(lc, ps[1..]);
      if Occurs(lc, ps[0]) {
        assert Found(lc, ps) == [ps[0]] + f;
        assert Describe([ps[0]] + f) == [KeywordReason(ps[0])] + Describe(f) by {
          assert ([ps[0]] + f)[1..] == f;
        }
      } else {
        assert Found(lc, ps) == f;
      }
    }
  }

  /** A pattern is found exactly when it is one of the patterns and occurs in the text. */
  lemma {:induction false} FoundMembers(lc: string, ps: seq<string>, p: string)
    ensures p in Found(lc, ps) <==> p in ps && Occurs(lc, p)
    decreases |ps|
  {
    if |ps| > 0 {
      FoundMembers(lc, ps[1..], p);
      assert p in ps <==> p == ps[0] || p in ps[1..] by {
        assert ps == [ps[0]] + ps[1..];
      }
    }
  }

  /** Found patterns keep the declaration order of the pattern list. */
  lemma {:induction false} FoundInDeclarationOrder(lc: string, ps: seq<string>)
    ensures Subsequence(Found(lc, ps), ps)
    decreases |ps|
  {
    if |ps| > 0 {
      FoundInDeclarationOrder(lc, ps[1..]);
      var f := Found(lc, ps[1..]);
      if Occurs(lc, ps[0]) {
        assert Found(lc, ps) == [ps[0]] + f;
        assert ([ps[0]] + f)[1..] == f;
      } else {
        assert Found(lc, ps) == f;
      }
    }
  }

  /** With distinct patterns, every pattern found appears in the list exactly once. */
  lemma {:induction false} FoundOnce(lc: string, ps: seq<string>, p: string)
    requires Distinct(ps)
    ensures multiset(Found(lc, ps))[p] == if p in ps && Occurs(lc, p) then 1 else 0
    decreases |ps|
  {
    if |ps| > 0 {
      assert Distinct(ps[1..]);
      FoundOnce(lc, ps[1..], p);
      assert p in ps <==> p == ps[0] || p in ps[1..] by {
        assert ps == [ps[0]] + ps[1..];
      }
      if p == ps[0] {
        assert p !in ps[1..];
      }
    }
  }

  lemma KeywordReasonInjective(p: string, q: string)
    requires KeywordReason(p) == KeywordReason(q)
    ensures p == q
  {
    assert p == KeywordReason(p)[|KeywordPrefix|..];
    assert q == KeywordReason(q)[|KeywordPrefix|..];
  }

  /** Every keyword reason starts with the keyword prefix, so none equals a URL reason. */
  lemma {:induction false} DescribeSpeaksOfKeywords(ps: seq<string>)
    ensures |Describe(ps)| == |ps|
    ensures forall i :: 0 <= i < |ps| ==> Describe(ps)[i] == KeywordReason(ps[i])
    ensures HttpReason !in Describe(ps) && LoginReason !in Describe(ps)
    decreases |ps|
  {
    if |ps| > 0 {
      DescribeSpeaksOfKeywords(ps[1..]);
      assert KeywordReason(ps[0])[0] == 'C';
      assert HttpReason[0] == 'U' && LoginReason[0] == 'U';
      assert Describe(ps) == [KeywordReason(ps[0])] + Describe(ps[1..]);
    }
  }

  /** A pattern's reason is listed as often as the pattern itself. */
  lemma {:induction false} DescribeCounts(ps: seq<string>, p: string)
    ensures multiset(Describe(ps))[KeywordReason(p)] == multiset(ps)[p]
    decreases |ps|
  {
    if |ps| > 0 {
      DescribeCounts(ps[1..], p);
      assert ps == [ps[0]] + ps[1..];
      if KeywordReason(ps[0]) == KeywordReason(p) {
        KeywordReasonInjective(ps[0], p);
      }
    }
  }

  /** The accumulation computes the reference score and reasons, whatever the pattern list. */
  lemma ScoreWithMeaning(ps: seq<string>, url: string, content: string)
    ensures ScoreWith(ps, url, content) == Tally(TenthsWith(ps, url, content), ReasonsWith(ps, url, content))
  {
    ScanPatternsFindsPatterns(Tally(0, []), ToLower(content), ps);
  }

  // ---------------------------------------------------------------------------
  // detectPhishing
  // ---------------------------------------------------------------------------

  /** `detectPhishing(url, content)`: the reported confidence is the raw score
      clamped to one, the verdict is decided on the unclamped score, and the
      reasons list one entry per signal, in signal order. */
  function DetectPhishing(url: string, content: string): (d: Detection)
    ensures d.confidence == Min(ExpectedTenths(url, content), MaxConfidence)
    ensures d.isPhishing <==> ExpectedTenths(url, content) >= PhishingTenths
    ensures d.reasons == ExpectedReasons(url, content)
  {
    ScoreWithMeaning(SuspiciousPatterns, url, content);
    var t := ScoreWith(SuspiciousPatterns, url, content);
    Detection(t.tenths >= PhishingTenths, Min(t.tenths, MaxConfidence), t.reasons)
  }

  /** Keyword matching ignores letter case: the content and its lower-cased form score alike. */
  lemma LowerCasedContentScoresAlike(url: string, content: string)
    ensures DetectPhishing(url, ToLower(content)) == DetectPhishing(url, content)
  {
    ToLowerIdempotent(content);
  }

  /** The raw score is the sum of the signal weights, at most eleven tenths,
      and there is one reason per signal, at most ten reasons. */
  lemma SignalsAndReasons(url: string, content: string)
    ensures var k := |Found(ToLower(content), SuspiciousPatterns)|;
      && k <= |SuspiciousPatterns|
      && ExpectedTenths(url, content) <= 11
      && |DetectPhishing(url, content).reasons|
         == k + (if HttpSignal(url) then 1 else 0) + (if LoginSignal(url) then 1 else 0)
      && |DetectPhishing(url, content).reasons| <= 10
  {
    FoundLength(ToLower(content), SuspiciousPatterns);
    DescribeSpeaksOfKeywords(Found(ToLower(content), SuspiciousPatterns));
  }

  lemma {:induction false} FoundLength(lc: string, ps: seq<string>)
    ensures |Found(lc, ps)| <= |ps|
    decreases |ps|
  {
    if |ps| > 0 {
      FoundLength(lc, ps[1..]);
    }
  }

  /** Keyword reasons never coincide with the URL reasons, which differ from each other. */
  lemma ReasonsDiffer(p: string)
    ensures KeywordReason(p) != HttpReason && KeywordReason(p) != LoginReason
    ensures HttpReason != LoginReason
  {
    assert KeywordReason(p)[0] == 'C';
    assert HttpReason[0] == 'U' && LoginReason[0] == 'U';
    assert HttpReason[1] != LoginReason[1];
  }

  /** With distinct patterns, a pattern's reason is listed once if it occurs and never otherwise. */
  lemma KeywordReasonCount(ps: seq<string>, url: string, content: string, p: string)
    requires Distinct(ps)
    ensures multiset(ReasonsWith(ps, url, content))[KeywordReason(p)]
         == if p in ps && Occurs(ToLower(content), p) then 1 else 0
  {
    var f := Found(ToLower(content), ps);
    FoundOnce(ToLower(content), ps, p);
    DescribeCounts(f, p);
    ReasonsDiffer(p);
  }

  /** The URL reasons follow the keyword reasons, HTTP first, each at most once
      and each present exactly when its URL signal fires. */
  lemma UrlReasonPlacement(ps: seq<string>, url: string, content: string)
    ensures var r := ReasonsWith(ps, url, content);
      var k := |Found(ToLower(content), ps)|;
      && (HttpReason in r <==> HttpSignal(url))
      && (LoginReason in r <==> LoginSignal(url))
      && (HttpSignal(url) ==> r[k] == HttpReason)
      && (LoginSignal(url) ==> r[|r| - 1] == LoginReason)
      && multiset(r)[HttpReason] <= 1
      && multiset(r)[LoginReason] <= 1
  {
    var f := Found(ToLower(content), ps);
    DescribeSpeaksOfKeywords(f);
    ReasonsDiffer("");
    assert multiset(Describe(f))[HttpReason] == 0;
    assert multiset(Describe(f))[LoginReason] == 0;
  }

  lemma PatternsDistinct()
    ensures Distinct(SuspiciousPatterns)
  {
  }

  /** Each of the eight patterns contributes at most once: its reason appears
      exactly once when it occurs in the lower-cased content, and never otherwise. */
  lemma EachPatternOnce(url: string, content: string, i: int)
    requires 0 <= i < |SuspiciousPatterns|
    ensures var p := SuspiciousPatterns[i];
      multiset(DetectPhishing(url, content).reasons)[KeywordReason(p)]
        == if Occurs(ToLower(content), p) then 1 else 0
  {
    PatternsDistinct();
    KeywordReasonCount(SuspiciousPatterns, url, content, SuspiciousPatterns[i]);
  }

  /** The URL reasons of `detectPhishing`: after the keyword reasons, HTTP first,
      each at most once and each present exactly when its URL signal fires. */
  lemma UrlReasons(url: string, content: string)
    ensures var d := DetectPhishing(url, content);
      var k := |Found(ToLower(content), SuspiciousPatterns)|;
      && (HttpReason in d.reasons <==> HttpSignal(url))
      && (LoginReason in d.reasons <==> LoginSignal(url))
      && (HttpSignal(url) ==> d.reasons[k] == HttpReason)
      && (LoginSignal(url) ==> d.reasons[|d.reasons| - 1] == LoginReason)
      && multiset(d.reasons)[HttpReason] <= 1
      && multiset(d.reasons)[LoginReason] <= 1
  {
    var d := DetectPhishing(url, content);
    assert d.reasons == ReasonsWith(SuspiciousPatterns, url, content);
    UrlReasonPlacement(SuspiciousPatterns, url, content);
  }

  /** Keyword reasons keep the declaration order of the patterns and come first. */
  lemma ReasonsInDeclarationOrder(url: string, content: string)
    ensures var d := DetectPhishing(url, content);
      var f := Found(ToLower(content), SuspiciousPatterns);
      && Subsequence(f, SuspiciousPatterns)
      && |f| <= |d.reasons|
      && forall i :: 0 <= i < |f| ==> d.reasons[i] == KeywordReason(f[i])
  {
    var f := Found(ToLower(content), SuspiciousPatterns);
    FoundInDeclarationOrder(ToLower(content), SuspiciousPatterns);
    DescribeSpeaksOfKeywords(f);
  }

  /** A URL with both `login` and `signin` still adds one tenth and one reason. */
  lemma LoginAndSigninCountOnce(url: string, content: string)
    requires Occurs(url, LoginMarker) && Occurs(url, SigninMarker)
    ensures ExpectedTenths(url, content)
         == |Found(ToLower(content), SuspiciousPatterns)| + (if HttpSignal(url) then HttpWeight else 0) + LoginWeight
    ensures multiset(DetectPhishing(url, content).reasons)[LoginReason] == 1
  {
    UrlReasons(url, content);
  }

  // ---------------------------------------------------------------------------
  // Bounds and the verdict
  // ---------------------------------------------------------------------------

  /** The reported confidence lies in [0, 1], and equals the raw score below the clamp. */
  lemma ConfidenceBounded(url: string, content: string)
    ensures DetectPhishing(url, content).confidence <= MaxConfidence
    ensures ExpectedTenths(url, content) <= MaxConfidence
        ==> DetectPhishing(url, content).confidence == ExpectedTenths(url, content)
  {
  }

  /** The verdict away from the three-tenths boundary. */
  lemma VerdictAwayFromBoundary(url: string, content: string)
    ensures ExpectedTenths(url, content) >= 4 ==> DetectPhishing(url, content).isPhishing
    ensures ExpectedTenths(url, content) <= 2 ==> !DetectPhishing(url, content).isPhishing
  {
  }

  /** Patterns that occur in a text still occur in a text that contains it. */
  lemma {:induction false} FoundGrows(lc: string, lc': string, ps: seq<string>)
    requires forall p :: Occurs(lc, p) ==> Occurs(lc', p)
    ensures |Found(lc, ps)| <= |Found(lc', ps)|
    decreases |ps|
  {
    if |ps| > 0 {
      FoundGrows(lc, lc', ps[1..]);
    }
  }

  lemma OccursInLonger(s: string, before: string, after: string)
    ensures forall p :: Occurs(s, p) ==> Occurs(before + s + after, p)
  {
    forall p | Occurs(s, p)
      ensures Occurs(before + s + after, p)
    {
      OccursExtend(s, p, before, after);
    }
  }

  lemma TenthsWithGrows(ps: seq<string>, url: string, content: string, ub: string, ua: string, cb: string, ca: string)
    ensures TenthsWith(ps, url, content) <= TenthsWith(ps, ub + url + ua, cb + content + ca)
  {
    ToLowerAppend(cb, content);
    ToLowerAppend(cb + content, ca);
    OccursInLonger(ToLower(content), ToLower(cb), ToLower(ca));
    FoundGrows(ToLower(content), ToLower(cb + content + ca), ps);
    OccursInLonger(url, ub, ua);
  }

  /** Adding text around the URL or the content never removes a signal: the
      raw score, the reported confidence and the verdict can only grow. */
  lemma MoreTextNeverLowersScore(url: string, content: string, ub: string, ua: string, cb: string, ca: string)
    ensures ExpectedTenths(url, content) <= ExpectedTenths(ub + url + ua, cb + content + ca)
    ensures DetectPhishing(url, content).confidence <= DetectPhishing(ub + url + ua, cb + content + ca).confidence
    ensures DetectPhishing(url, content).isPhishing ==> DetectPhishing(ub + url + ua, cb + content + ca).isPhishing
  {
    TenthsWithGrows(SuspiciousPatterns, url, content, ub, ua, cb, ca);
  }

  // ---------------------------------------------------------------------------
  // Concrete inputs
  // ---------------------------------------------------------------------------

  /** Words separated by single spaces. */
  function Join(ws: seq<string>): string
    decreases |ws|
  {
    if |ws| == 0 then "" else ws[0] + " " + Join(ws[1..])
  }

  lemma {:induction false} JoinHasWords(ws: seq<string>, i: int)
    requires 0 <= i < |ws|
    ensures Occurs(Join(ws), ws[i])
    decreases |ws|
  {
    var rest := Join(ws[1..]);
    if i == 0 {
      assert OccursAt(ws[0], ws[0], 0);
      OccursExtend(ws[0], ws[0], "", " " + rest);
      assert "" + ws[0] + (" " + rest) == Join(ws);
    } else {
      JoinHasWords(ws[1..], i - 1);
      OccursExtend(rest, ws[i], ws[0] + " ", "");
      assert ws[0] + " " + rest + "" == Join(ws);
    }
  }

  lemma {:induction false} JoinLower(ws: seq<string>)
    requires forall i, k :: 0 <= i < |ws| && 0 <= k < |ws[i]| ==> !IsUpper(ws[i][k])
    ensures ToLower(Join(ws)) == Join(ws)
    decreases |ws|
  {
    if |ws| > 0 {
      var rest := Join(ws[1..]);
      JoinLower(ws[1..]);
      ToLowerOfLower(ws[0]);
      ToLowerOfLower(" ");
      ToLowerAppend(ws[0], " ");
      ToLowerAppend(ws[0] + " ", rest);
    }
  }

  /** Lower-case words joined together contain every one of them. */
  lemma FoundInJoin(ws: seq<string>)
    requires forall i, k :: 0 <= i < |ws| && 0 <= k < |ws[i]| ==> !IsUpper(ws[i][k])
    ensures Found(ToLower(Join(ws)), ws) == ws
  {
    JoinLower(ws);
    forall i | 0 <= i < |ws|
      ensures Occurs(ToLower(Join(ws)), ws[i])
    {
      JoinHasWords(ws, i);
    }
    FoundAll(ToLower(Join(ws)), ws);
  }

  lemma PatternsLowerCase()
    ensures forall i, k :: 0 <= i < |SuspiciousPatterns| && 0 <= k < |SuspiciousPatterns[i]| ==> !IsUpper(SuspiciousPatterns[i][k])
  {
  }

  /** Content listing every pattern contains every pattern. */
  lemma AllPatternsFound()
    ensures Found(ToLower(Join(SuspiciousPatterns)), SuspiciousPatterns) == SuspiciousPatterns
  {
    PatternsLowerCase();
    FoundInJoin(SuspiciousPatterns);
  }

  /** A URL that opens with `http://login` has both URL signals. */
  lemma HttpLoginSignals(url: string)
    requires |url| >= |HttpMarker + LoginMarker| && url[..|HttpMarker + LoginMarker|] == HttpMarker + LoginMarker
    ensures HttpSignal(url) && LoginSignal(url)
  {
    var prefix := HttpMarker + LoginMarker;
    assert url[..7] == prefix[..7] == HttpMarker;
    assert url[7..12] == prefix[7..12] == LoginMarker;
    assert OccursAt(url, HttpMarker, 0);
    assert OccursAt(url, LoginMarker, 7);
  }

  /** The clamp is reachable: content listing every pattern and a plain-HTTP
      login URL make eleven raw tenths, reported as one. */
  lemma ClampReached()
    ensures ExpectedTenths("http://login", Join(SuspiciousPatterns)) == 11
    ensures DetectPhishing("http://login", Join(SuspiciousPatterns)).confidence == MaxConfidence
    ensures DetectPhishing("http://login", Join(SuspiciousPatterns)).isPhishing
  {
    AllPatternsFound();
    HttpLoginSignals("http://login");
  }

  /** The detection assembled from its parts: the patterns found in the
      lower-cased content and the two URL signals. */
  lemma DetectionFromSignals(url: string, content: string, found: seq<string>, http: bool, login: bool)
    requires Found(ToLower(content), SuspiciousPatterns) == found
    requires HttpSignal(url) == http && LoginSignal(url) == login
    ensures var t := |found| + (if http then HttpWeight else 0) + (if login then LoginWeight else 0);
      DetectPhishing(url, content)
      == Detection(t >= PhishingTenths, Min(t, MaxConfidence),
                   Describe(found) + (if http then [HttpReason] else []) + (if login then [LoginReason] else []))
  {
  }

  /** When every pattern occurs, every pattern is found. */
  lemma {:induction false} FoundAll(lc: string, ps: seq<string>)
    requires forall i :: 0 <= i < |ps| ==> Occurs(lc, ps[i])
    ensures Found(lc, ps) == ps
    decreases |ps|
  {
    if |ps| > 0 {
      FoundAll(lc, ps[1..]);
    }
  }

  /** No pattern is found in a text where none occurs. */
  lemma {:induction false} FoundNone(lc: string, ps: seq<string>)
    requires forall i :: 0 <= i < |ps| ==> !Occurs(lc, ps[i])
    ensures Found(lc, ps) == []
    decreases |ps|
  {
    if |ps| > 0 {
      FoundNone(lc, ps[1..]);
    }
  }

  lemma EmptyContentHasNoKeywords()
    ensures Found(ToLower(""), SuspiciousPatterns) == []
  {
    forall i | 0 <= i < |SuspiciousPatterns|
      ensures !Occurs("", SuspiciousPatterns[i])
    {
      assert |SuspiciousPatterns[i]| > 0;
    }
    FoundNone("", SuspiciousPatterns);
  }

  lemma PlainHttpSignals(url: string)
    requires url == "http://example.com"
    ensures HttpSignal(url) && !LoginSignal(url)
  {
    assert OccursAt(url, HttpMarker, 0);
    MissingCharExcludes(url, LoginMarker, 3);
    MissingCharExcludes(url, SigninMarker, 4);
  }

  /** A plain-HTTP URL with no content scores two tenths: not phishing, one reason. */
  lemma PlainHttpExample(url: string, content: string)
    requires url == "http://example.com" && content == ""
    ensures DetectPhishing(url, content) == Detection(false, 2, [HttpReason])
  {
    EmptyContentHasNoKeywords();
    PlainHttpSignals(url);
    DetectionFromSignals(url, content, [], true, false);
  }

  lemma UpperCaseUrlSignals(url: string)
    requires url == "HTTP://LOGIN.EXAMPLE.COM"
    ensures !HttpSignal(url) && !LoginSignal(url)
  {
    MissingCharExcludes(url, HttpMarker, 0);
    MissingCharExcludes(url, LoginMarker, 0);
    MissingCharExcludes(url, SigninMarker, 0);
  }

  /** The URL checks are case-sensitive: upper-case `HTTP://` and `LOGIN` add nothing. */
  lemma UpperCaseUrlAddsNothing(url: string, content: string)
    requires url == "HTTP://LOGIN.EXAMPLE.COM" && content == ""
    ensures DetectPhishing(url, content) == Detection(false, 0, [])
  {
    EmptyContentHasNoKeywords();
    UpperCaseUrlSignals(url);
    DetectionFromSignals(url, content, [], false, false);
  }

  /** The same URL in lower case reaches three tenths and is flagged. */
  lemma LowerCaseUrlReachesThreshold(url: string, content: string)
    requires url == "http://login.example.com" && content == ""
    ensures DetectPhishing(url, content) == Detection(true, 3, [HttpReason, LoginReason])
  {
    EmptyContentHasNoKeywords();
    HttpLoginSignals(url);
    DetectionFromSignals(url, content, [], true, true);
  }

  /** Filtering a concatenation filters each part. */
  lemma {:induction false} FoundAppend(lc: string, a: seq<string>, b: seq<string>)
    ensures Found(lc, a + b) == Found(lc, a) + Found(lc, b)
    decreases |a|
  {
    if |a| == 0 {
      assert a + b == b;
    } else {
      var head := if Occurs(lc, a[0]) then [a[0]] else [];
      assert (a + b)[0] == a[0];
      assert (a + b)[1..] == a[1..] + b;
      calc {
        Found(lc, a + b);
        head + Found(lc, a[1..] + b);
        { FoundAppend(lc, a[1..], b); }
        head + (Found(lc, a[1..]) + Found(lc, b));
        (head + Found(lc, a[1..])) + Found(lc, b);
        Found(lc, a) + Found(lc, b);
      }
    }
  }

  lemma SampleContentHits(content: string)
    requires content == "urgent verify password"
    ensures Found(content, ["urgent", "verify", "password"]) == ["urgent", "verify", "password"]
  {
    assert OccursAt(content, "urgent", 0);
    assert OccursAt(content, "verify", 7);
    assert OccursAt(content, "password", 14);
    FoundAll(content, ["urgent", "verify", "password"]);
  }

  lemma SampleContentMisses(content: string)
    requires content == "urgent verify password"
    ensures Found(content, ["account", "suspicious", "unusual", "login", "security"]) == []
  {
    MissingCharExcludes(content, "account", 1);
    MissingCharExcludes(content, "suspicious", 5);
    MissingCharExcludes(content, "unusual", 6);
    MissingCharExcludes(content, "login", 0);
    MissingCharExcludes(content, "security", 2);
    FoundNone(content, ["account", "suspicious", "unusual", "login", "security"]);
  }

  lemma SampleContentIsLower(content: string)
    requires content == "urgent verify password"
    ensures ToLower(content) == content
  {
    ToLowerOfLower(content);
  }

  /** `urgent verify password` holds exactly the first three patterns. */
  lemma SampleContentKeywords(content: string)
    requires content == "urgent verify password"
    ensures Found(ToLower(content), SuspiciousPatterns) == ["urgent", "verify", "password"]
  {
    var hit := ["urgent", "verify", "password"];
    var miss := ["account", "suspicious", "unusual", "login", "security"];
    SampleContentIsLower(content);
    SampleContentHits(content);
    SampleContentMisses(content);
    assert SuspiciousPatterns == hit + miss;
    FoundAppend(content, hit, miss);
  }

  /** `https://` is not `http://`: the URL's only `h` is its first character,
      and the match there fails at the `s`. */
  lemma SecureUrlIsNotPlainHttp(url: string)
    requires url == "https://secure-login.example.com"
    ensures !HttpSignal(url)
  {
    assert !OccursAt(url, HttpMarker, 0) by {
      assert url[4] != HttpMarker[4];
    }
    assert forall i :: 0 < i < |url| ==> url[i] != 'h';
    OnlyCandidateAtStart(url, HttpMarker);
  }

  /** An HTTPS URL with `login` in its host has the login signal but not the HTTP one. */
  lemma SecureLoginUrlSignals(url: string)
    requires url == "https://secure-login.example.com"
    ensures !HttpSignal(url) && LoginSignal(url)
  {
    SecureUrlIsNotPlainHttp(url);
    assert OccursAt(url, LoginMarker, 15);
  }

  lemma SampleContentReasons(ps: seq<string>)
    requires ps == ["urgent", "verify", "password"]
    ensures Describe(ps) == [KeywordReason("urgent"), KeywordReason("verify"), KeywordReason("password")]
  {
    var tail := ps[1..];
    assert tail == ["verify", "password"];
    assert Describe(tail[1..]) == [KeywordReason("password")];
    assert Describe(tail) == [KeywordReason("verify"), KeywordReason("password")];
  }

  /** Three keywords and a login URL over HTTPS: four tenths, phishing, and
      the keyword reasons in declaration order before the login reason. */
  lemma SecureLoginExample(url: string, content: string)
    requires url == "https://secure-login.example.com" && content == "urgent verify password"
    ensures DetectPhishing(url, content)
         == Detection(true, 4, [KeywordReason("urgent"), KeywordReason("verify"), KeywordReason("password"), LoginReason])
  {
    SecureLoginUrlSignals(url);
    SampleContentKeywords(content);
    DetectionFromSignals(url, content, ["urgent", "verify", "password"], false, true);
    SampleContentReasons(["urgent", "verify", "password"]);
  }

  lemma UpperUrgentLowers(content: string)
    requires content == "URGENT"
    ensures ToLower(content) == "urgent"
  {
  }

  lemma UrgentHits(lc: string)
    requires lc == "urgent"
    ensures Found(lc, ["urgent"]) == ["urgent"]
  {
    assert OccursAt(lc, "urgent", 0);
    FoundAll(lc, ["urgent"]);
  }

  lemma UrgentMisses(lc: string)
    requires lc == "urgent"
    ensures Found(lc, ["verify", "password", "account", "suspicious", "unusual", "login", "security"]) == []
  {
    MissingCharExcludes(lc, "verify", 0);
    MissingCharExcludes(lc, "password", 0);
    MissingCharExcludes(lc, "account", 0);
    MissingCharExcludes(lc, "suspicious", 0);
    MissingCharExcludes(lc, "unusual", 3);
    MissingCharExcludes(lc, "login", 0);
    MissingCharExcludes(lc, "security", 0);
    FoundNone(lc, ["verify", "password", "account", "suspicious", "unusual", "login", "security"]);
  }

  /** `urgent` holds the first pattern and no other. */
  lemma UrgentKeywords(lc: string)
    requires lc == "urgent"
    ensures Found(lc, SuspiciousPatterns) == ["urgent"]
  {
    var miss := ["verify", "password", "account", "suspicious", "unusual", "login", "security"];
    UrgentHits(lc);
    UrgentMisses(lc);
    assert SuspiciousPatterns == ["urgent"] + miss;
    FoundAppend(lc, ["urgent"], miss);
  }

  lemma PlainHostSignals(url: string)
    requires url == "a.example"
    ensures !HttpSignal(url) && !LoginSignal(url)
  {
    MissingCharExcludes(url, HttpMarker, 0);
    MissingCharExcludes(url, LoginMarker, 3);
    MissingCharExcludes(url, SigninMarker, 4);
  }

  /** Keyword matching ignores letter case: upper-case `URGENT` triggers the
      `urgent` keyword, adding one tenth and its reason. */
  lemma UpperCaseContentMatches(url: string, content: string)
    requires url == "a.example" && content == "URGENT"
    ensures DetectPhishing(url, content) == Detection(false, 1, [KeywordReason("urgent")])
  {
    UpperUrgentLowers(content);
    UrgentKeywords(ToLower(content));
    PlainHostSignals(url);
    DetectionFromSignals(url, content, ["urgent"], false, false);
  }
}
