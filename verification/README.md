# Smart Shark phishing scorer, in Dafny

Smart Shark is a mocked security dashboard. Its only real logic is the
backend's phishing scorer, `detectPhishing`. It takes a URL and a piece of
content and returns a verdict, a confidence and a list of reasons:

- Each of eight keywords found in the lower-cased content adds 0.1 and one
  reason.
- `http://` in the URL adds 0.2 and one reason.
- `login` or `signin` in the URL adds 0.1 and one reason.
- The confidence is clamped to 1. The verdict is `confidence > 0.3`, taken on
  the unclamped sum.

The project models this scorer and the `POST /analyze` handler around it.
The handler validates the body, scores it and echoes the URL. It also models
four small pieces of frontend logic:

- the confidence-to-colour classifier and the empty-URL guard of the phishing
  page;
- the case-insensitive severity-to-colour matcher of the scan page;
- the notification toggles of the profile page.

Files and modules:

- `text.dfy` (`Text`): ASCII lower-casing and substring search (`includes`),
  proved to match the substring relation `Occurs`.
- `scorer.dfy` (`Scorer`): the scorer, with confidence in integer tenths.
  The scorer is a running tally: a fold over the patterns, then the two URL
  checks. It is proved equal to a reference definition built from a filter
  of the patterns (`Found`) and the substring relation.
- `analyze.dfy` (`Analyze`): validation and the `/analyze` response.
- `palette.dfy` (`Palette`): the chip colours.
- `phishing_page.dfy`, `scan_page.dfy`, `profile_page.dfy`: the frontend
  helpers.

## The verdict at three tenths

The source compares a double-precision sum with 0.3. The model counts tenths
exactly. This only matters at exactly three tenths. The scorer can reach three
tenths in three ways: 0.1+0.1+0.1, 0.1+0.2 and 0.2+0.1. Each of these sums to
0.30000000000000004 in double precision, which is greater than 0.3. So the
model flags a raw score of three tenths or more (`Scorer.PhishingTenths`).
This rests on the rounding argument above. Nothing checks it mechanically.
The lemmas that need no such assumption are proved separately:
`Scorer.VerdictAwayFromBoundary` shows that four or more tenths is phishing
and two or fewer is safe.

In exact arithmetic, three tenths would not exceed 0.3. The code flags it
because the double sum is 0.30000000000000004, and the model follows the
code. `Scorer.LowerCaseUrlReachesThreshold` shows a three-tenths URL being
flagged.

## Client and server disagree on content

The phishing page labels the content field "optional" and checks only that
the URL is non-empty. The server rejects empty content with 400 and
"Content is required". So a form with a URL and no content passes the client
guard and is then rejected by the server.
`PhishingPage.EmptyContentPassesClientButNotServer` states this. The converse
holds as long as `isURL("")` is false: the client never blocks a request the
server would accept (`PhishingPage.ClientGuardWeakerThanServer`).

## Model

| member | source | states |
|---|---|---|
| Text.ToLower | backend/src/routes/phishing.ts:26 | lower-casing keeps the length, turns each of `A`-`Z` into the matching letter of `a`-`z`, and keeps every other character |
| Text.Includes | backend/src/routes/phishing.ts:26 | `includes` is true exactly when the pattern is a substring (occurs at some index), the empty pattern included |
| Text.ToLowerIdempotent | frontend/src/pages/Scan.tsx:59 | lower-casing an already lower-cased string changes nothing |
| Text.OccursExtend | backend/src/routes/phishing.ts:26 | a substring of a text is still a substring after text is added on either side |
| Text.MissingCharExcludes | backend/src/routes/phishing.ts:33-38 | a text that lacks one of the pattern's characters does not contain the pattern |
| Scorer.ScanPatternsFindsPatterns | backend/src/routes/phishing.ts:25-30 | the keyword loop adds exactly the patterns that occur, one tenth and one reason each, in pattern order, after what the tally already held |
| Scorer.FoundMembers | backend/src/routes/phishing.ts:25-30 | a pattern is counted if and only if it is in the list and occurs in the lower-cased content |
| Scorer.FoundInDeclarationOrder | backend/src/routes/phishing.ts:10-19 | the patterns found form a subsequence of the pattern list, keeping declaration order |
| Scorer.ScoreWithMeaning | backend/src/routes/phishing.ts:21-41 | the whole tally equals the reference: tenths = keywords found + 2 for `http://` + 1 for `login`/`signin`, and reasons = keyword reasons, then the HTTP reason, then the login reason |
| Scorer.DetectPhishing | backend/src/routes/phishing.ts:8-48 | confidence = min(raw tenths, 10); verdict holds if and only if raw tenths >= 3, taken on the unclamped score; reasons are the reference reasons in signal order |
| Scorer.UpperCaseContentMatches | backend/src/routes/phishing.ts:26-28 | the content `URGENT` (upper case), with a URL that has no signal, triggers the `urgent` keyword: one tenth, not phishing, with that keyword's single reason |
| Scorer.LowerCasedContentScoresAlike | backend/src/routes/phishing.ts:26 | scoring the content and scoring its lower-cased form give the same result |
| Scorer.EachPatternOnce | backend/src/routes/phishing.ts:10-30 | for each of the eight patterns, its reason appears exactly once if the pattern occurs in the lower-cased content and never otherwise, however often it occurs |
| Scorer.ReasonsInDeclarationOrder | backend/src/routes/phishing.ts:25-41 | the keyword reasons come first, one per found pattern, in pattern-declaration order |
| Scorer.UrlReasons | backend/src/routes/phishing.ts:33-41 | the HTTP reason is present if and only if the URL contains `http://`, and it directly follows the keyword reasons; the login reason is present if and only if the URL contains `login` or `signin`, and it comes last; each appears at most once |
| Scorer.LoginAndSigninCountOnce | backend/src/routes/phishing.ts:38-41 | a URL with both `login` and `signin` adds one tenth and one reason |
| Scorer.SignalsAndReasons | backend/src/routes/phishing.ts:21-41 | at most eight keywords are found; raw tenths <= 11; the number of reasons equals the number of signals fired, at most 10 |
| Scorer.ConfidenceBounded | backend/src/routes/phishing.ts:45 | the reported confidence is at most one, and equals the raw score when the raw score does not exceed one |
| Scorer.ClampReached | backend/src/routes/phishing.ts:45 | the clamp is reachable: all eight keywords plus a plain-HTTP login URL give eleven raw tenths, reported as ten |
| Scorer.VerdictAwayFromBoundary | backend/src/routes/phishing.ts:44 | four or more raw tenths is phishing, and two or fewer is not |
| Scorer.MoreTextNeverLowersScore | backend/src/routes/phishing.ts:24-45 | adding text around the URL or the content never lowers the raw score or the confidence, and never turns a phishing verdict into a safe one |
| Scorer.PlainHttpExample | backend/src/routes/phishing.ts:33-36 | `http://example.com` with empty content scores 0.2, is not phishing, and has the single HTTP reason |
| Scorer.SecureLoginExample | backend/src/routes/phishing.ts:25-44 | `https://secure-login.example.com` with content `urgent verify password` scores four tenths and is phishing. Its reasons are the three keyword reasons in declaration order, then the login reason. There is no HTTP reason, because the scheme is `https://` |
| Scorer.UpperCaseUrlAddsNothing | backend/src/routes/phishing.ts:33-41 | the URL checks are case-sensitive: `HTTP://LOGIN.EXAMPLE.COM` with empty content scores zero, with no reasons |
| Scorer.LowerCaseUrlReachesThreshold | backend/src/routes/phishing.ts:33-44 | `http://login.example.com` with empty content scores three tenths and is flagged, with the HTTP reason before the login reason |
| Analyze.Validate | backend/src/routes/phishing.ts:54-57 | a URL error is reported if and only if `isURL` fails, and a content error if and only if the content is empty. There is exactly one entry per failing field, the URL error comes first, and there are no other errors |
| Analyze.HandleAnalyze | backend/src/routes/phishing.ts:58-72 | the handler answers 400 if and only if validation fails, and then carries exactly the validation errors; otherwise it echoes the URL and the timestamp and carries the scorer's verdict, confidence and reasons |
| Analyze.RejectionIgnoresScore | backend/src/routes/phishing.ts:60-63 | a rejected request's answer depends only on which fields failed, not on what the content would have scored |
| Analyze.AcceptedResponseBounds | backend/src/routes/phishing.ts:65-72 | an accepted request gets an analysis whose confidence is at most one and whose verdict agrees with the raw score |
| PhishingPage.ConfidenceColor | frontend/src/pages/Phishing.tsx:82-86 | error if and only if confidence >= 0.7; warning if and only if 0.4 <= confidence < 0.7; success if and only if confidence < 0.4 |
| PhishingPage.ConfidenceColorMonotone | frontend/src/pages/Phishing.tsx:82-86 | a higher confidence never gets a less alarming colour (success < warning < error) |
| PhishingPage.ScoreColor | frontend/src/pages/Phishing.tsx:163-167 | a score of 7 tenths or more shows as error, 4 to 6 as warning, 3 or fewer as success |
| PhishingPage.HistoryFixtureColors | backend/src/routes/phishing.ts:83-98 | the history fixtures' confidences 0.1 and 0.8 show as success and error |
| PhishingPage.AnalyzeUrl | frontend/src/pages/Phishing.tsx:63-71 | the form is refused locally, with no request, if and only if the URL is empty; otherwise the URL and content are posted as typed, even when the content is empty |
| PhishingPage.EmptyContentPassesClientButNotServer | frontend/src/pages/Phishing.tsx:64-71 | a form with a URL and empty content is posted by the client and rejected by the server with the content error |
| PhishingPage.ClientGuardWeakerThanServer | frontend/src/pages/Phishing.tsx:64-67 | when `isURL("")` is false, every request the server accepts passes the client guard unchanged |
| ScanPage.SeverityColor | frontend/src/pages/Scan.tsx:58-69 | error if and only if the lower-cased severity is `high`, warning if and only if `medium`, info if and only if `low`, default for every other string; never success |
| ScanPage.SeverityIgnoresCase | frontend/src/pages/Scan.tsx:59 | the colour of a severity equals the colour of its lower-cased form |
| ScanPage.FixtureSeverities | backend/src/routes/scan.ts:12-19 | the fixture severities `High` and `Medium` show as error and warning; `Low` as info, `HIGH` as error, `Critical` as default |
| ProfilePage.Toggle | frontend/src/pages/Profile.tsx:35-41 | toggling a setting negates that setting and leaves the other two unchanged |
| ProfilePage.InitialSettings | frontend/src/pages/Profile.tsx:29-33 | email alerts and threat alerts start on, weekly reports start off |
| ProfilePage.ToggleTwice | frontend/src/pages/Profile.tsx:35-41 | toggling the same setting twice restores the state |
| ProfilePage.TogglesCommute | frontend/src/pages/Profile.tsx:35-41 | toggles of two settings commute |

## Left out

- Floating point: the model counts confidence in exact tenths. The doubles
  the source adds up are not modelled, nor the exact number the page receives.
  For example, seven keywords plus `http://` plus `login` sum to
  0.9999999999999999, which the model reports as ten tenths. Eight keywords
  alone sum to 0.7999999999999999. The three-tenths verdict
  rests on the rounding argument above.
- PhishingPage.ScoreColor: assumes the page receives exactly tenths / 10. The
  double sums near 0.4 and 0.7 are not modelled, so this states the colour of
  the exact score only.
- Unicode lower-casing: `ToLower` maps only `A`-`Z`. Two non-ASCII characters
  lower-case to ASCII letters: U+212A becomes `k`, and U+0130 becomes `i`
  followed by U+0307. No keyword, severity name or URL marker contains `k`,
  and none ends in `i`. So these two mappings cannot create or destroy a match.
  The model still does not represent them.
- `isURL` from the validation library is a function parameter. The model
  does not say which strings are URLs.
- `notEmpty` is modelled as length > 0 on a string body field. Missing or
  non-string fields are not modelled.
- The response timestamp comes from the clock and is a parameter.
- Express routing, the `auth` middleware and its 401 answers, and the
  catch-all 500 paths are not modelled. The auth middleware is not part of
  this model.
- `GET /history` on both routers, `POST /start` and `GET /:id` in
  `backend/src/routes/scan.ts`: constant fixtures behind a 2-second timer,
  with no logic. Only the fixture severities are used (`ScanPage.FixtureSeverities`).
- `backend/src/index.ts` (server start, database connection, WebSocket echo),
  `frontend/src/context/AuthContext.tsx` (network and storage calls),
  `frontend/src/pages/Dashboard.tsx` and `frontend/src/components/Layout.tsx`
  (display data and navigation): I/O and UI only.
- In `analyzeUrl`, the network call, the `analyzing` flag, the history
  refresh and the toasts are not modelled. Only the empty-URL guard and the
  posted body are.
- `handleNotificationChange` takes any string. With an unknown key, the page
  would add a new field set to `true`. The page passes only the three known
  keys, so the model toggles only those.
