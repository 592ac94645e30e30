# NeuVector image scan task — a verified model

This project models the core of the NeuVector container-scan task for Azure Pipelines
(`tasks/scan/scan.ts`). The remote scan works as follows:

1. The task authenticates with a NeuVector controller.
2. It requests a registry scan of the image over and over, for as long as the controller answers 304.
3. It signs out.
4. It collects the medium and the high severity findings into two buckets, keeping report order, and logs a warning per finding.
5. It renders a Markdown report for the build summary tab and, optionally, an output file.
6. It applies three policy checks. Each check can fail the task:
   - too many high severity findings;
   - too many medium severity findings;
   - a blacklisted CVE.

The standalone mode builds parameter strings for a docker command. These are modelled too.

The model has these modules:

- `Wrappers`: the Option and Result types.
- `JsText`: the JavaScript semantics the task relies on.
  - truthiness and template rendering of `undefined`, strings and numbers;
  - `trim`, with the JavaScript whitespace set;
  - ASCII `toUpperCase` and `toLowerCase`;
  - `split(/\r?\n/)`;
  - unary `+` on decimal integers.
- `NeuVectorApi`:
  - the error formatter;
  - the request bodies, as small JSON values;
  - the `ApiClient` class, whose `token` field `Authenticate` updates;
  - the availability probe.
- `ScanPoll`: the poll loop, as a method over the finite sequence of replies the controller sends.
- `ScanReport`: the report and finding records.
- `TaskStatus`: the task result, as a class whose list of failure messages only grows.
- `Evaluator`: severity buckets, thresholds, blacklist parsing and matching, and the three checks.
- `Markdown`: the report renderer. It is a method that appends piece by piece, proved equal to a function. A second description, line by line, is proved to match it.
- `Standalone`: the `-e NAME=value` options and the registry host prefix of the standalone docker command.
- `Orchestrator`: the remote flow of `run`, from authentication to the policy verdict.

The HTTP calls are not modelled. Each one is replaced by the reply it would produce, passed in as a parameter.

Where the task's documentation and its code differ, the model follows the code:

- `isAvailable` returns true when the reply is a 405 whose error is `Method not allowed`. It returns false for any other failed reply, a 500 included.
- `isAvailable` throws when a 405 reply has no error body. The model gives `None` for that case.
- `run` never calls `scanLocalRepository`. It always calls `scanRepository` with layer scanning on. The remote scan ignores the `scanLayers` input; only the standalone docker command reads it (`Standalone.ScanLayersParam`). When no registry connection is given, the registry, user name and password are empty strings.
- The error text is `NeuVector Scanner API Error` followed by ` <code>`, ` <error>` and `: <message>`, each only when that field is truthy. Without an error body it is `NeuVector Scanner API Error with HTTP status <status>`.
- The blacklist is a list, not a set. Blank lines stay in it as empty entries. An empty entry never matches, because `find` returns the entry itself and an empty string is falsy.
- A threshold input that is missing counts as -1, so an enabled check with no threshold always fails.

## Model

| member | source | states |
|---|---|---|
| NeuVectorApi.FormatApiError | tasks/scan/scan.ts:16-39 | The text always starts with the fixed prefix. Without an error body it is the prefix, " with HTTP status " and the status. With a body it appends " code", " error" and ": message" in that order, each only when that field is truthy. |
| NeuVectorApi.FormatWithoutBody | tasks/scan/scan.ts:34-36 | A reply without a body formats to the prefix followed by the HTTP status. |
| NeuVectorApi.FormatEmptyBody | tasks/scan/scan.ts:21-33 | A body whose code, error and message are all falsy leaves only the prefix. |
| NeuVectorApi.FailureMessage | tasks/scan/scan.ts:429 | The failure message is the body's `error` field, or undefined when there is no body. |
| NeuVectorApi.AuthBodyFields | tasks/scan/scan.ts:82-87 | The authentication body has the single key "password", holding the user name and the password. |
| NeuVectorApi.ScanRepositoryMembers | tasks/scan/scan.ts:105-114 | The registry scan body is one `request` object whose members are registry, username, password, repository, tag and scan_layers, in that order. |
| NeuVectorApi.ScanRepositoryBodyFields | tasks/scan/scan.ts:105-114 | Each member of the registry scan request holds its argument: the registry, its credentials, the image and the layer flag. |
| NeuVectorApi.LocalBodyOmitsRegistry | tasks/scan/scan.ts:128-134 | The local scan body is the registry body without its first three members: it has no registry, username or password key. |
| NeuVectorApi.ApiClient.constructor | tasks/scan/scan.ts:52-56 | A new client keeps its URL and TLS flag and starts with an empty token. |
| NeuVectorApi.ApiClient.Headers | tasks/scan/scan.ts:58-62 | The headers hold exactly one entry, `X-Auth-Token`, whose value is the current token. |
| NeuVectorApi.ApiClient.ProbeRequest | tasks/scan/scan.ts:66-72 | The probe is a GET of `/v1/auth` with no body and no headers. |
| NeuVectorApi.ApiClient.AuthRequest | tasks/scan/scan.ts:89-96 | Authentication is a POST of `/v1/auth` that carries the credentials body and no token header. `Orchestrator.RunRemote` proves a run's first request has this shape. |
| NeuVectorApi.ApiClient.ScanRepositoryRequest | tasks/scan/scan.ts:116-123 | The registry scan is a POST of `/v1/scan/repository` that carries the registry body and the token header. `ScanPoll.PollScan` and `Orchestrator.RunRemote` prove every scan request of a run has this shape. |
| NeuVectorApi.ApiClient.ScanLocalRepositoryRequest | tasks/scan/scan.ts:136-143 | The local scan is a POST of the same endpoint that carries the local body and the token header. |
| NeuVectorApi.ApiClient.UnauthenticateRequest | tasks/scan/scan.ts:171-179 | Sign-out is a DELETE of `/v1/auth` with the token header and no body. `Orchestrator.RunRemote` proves a run with a report ends with it. |
| NeuVectorApi.ApiClient.Authenticate | tasks/scan/scan.ts:81-101 | It sends the credentials without a token. On success the reply's token becomes the session token and the headers become that token alone. On failure the token is kept. |
| NeuVectorApi.AuthenticatedRequestsCarryToken | tasks/scan/scan.ts:58-62 | Both scan requests and the sign-out carry the same single header, holding the session token. |
| NeuVectorApi.IsAvailable | tasks/scan/scan.ts:64-79 | The probe is true exactly for a success, or for a 405 whose error is "Method not allowed". Any other failure gives false. A 405 without a body has no answer, because the code throws. |
| NeuVectorApi.ProbeOtherFailures | tasks/scan/scan.ts:74-76 | A failure that is not a 405 reads as unavailable, not as an error. |
| ScanPoll.PollScan | tasks/scan/scan.ts:436-462 | The loop ends as the reference function `Poll` says. It sends one request per reply it consumes, and every request is the registry scan with layer scanning on. |
| ScanPoll.PollSkipsRetries | tasks/scan/scan.ts:450-455 | 304 replies do not change where the loop ends. |
| ScanPoll.PollStopsAtFirstTerminal | tasks/scan/scan.ts:436-462 | The loop stops on the first reply that is not a 304, after retries + 1 requests. It returns that reply's report, or fails with that reply's error. |
| ScanPoll.PollRetriesThenTerminal | tasks/scan/scan.ts:436-462 | k retries and then a terminal reply take exactly k + 1 requests, whatever replies would follow. |
| ScanPoll.PollAllRetries | tasks/scan/scan.ts:449-455 | While every reply is a 304 the loop never stops. |
| TaskStatus.TaskResult.SetFailed | tasks/scan/scan.ts:587 | Marking the task Failed appends the message to the failures and keeps the earlier ones. |
| Evaluator.Names | tasks/scan/scan.ts:486 | The names list holds every finding's name, in input order. |
| Evaluator.Warnings | tasks/scan/scan.ts:496 | There is one warning per finding, in input order. |
| Evaluator.Classify | tasks/scan/scan.ts:481-497 | The loop fills the names, the medium and high buckets and the warnings, each equal to its reference function. |
| Evaluator.OfSeverityMembers | tasks/scan/scan.ts:487-494 | A finding is in a bucket exactly when it is in the report and its lower-cased severity is that bucket's name. |
| Evaluator.OfSeverityAppend | tasks/scan/scan.ts:485-494 | Bucketing a concatenation concatenates the buckets, so input order is kept. |
| Evaluator.BucketsDisjoint | tasks/scan/scan.ts:487-494 | The medium and high buckets share no finding, and together hold at most all the findings. |
| Evaluator.ThresholdBoundary | tasks/scan/scan.ts:586 | For a threshold given as the decimal text of n, the check fails exactly when count >= n. |
| Evaluator.MissingThresholdFails | tasks/scan/scan.ts:251 | A missing threshold counts as -1, so every count reaches it. |
| Evaluator.ParseBlacklist | tasks/scan/scan.ts:262-268 | A missing or empty input gives no entries. Otherwise there is one entry per line, one more than the line feeds, each the trimmed line. |
| Evaluator.ParseBlacklistOfJoined | tasks/scan/scan.ts:264-267 | Parsing trimmed one-line entries joined by line feeds gives the entries back. |
| Evaluator.ParseBlacklistCrlf | tasks/scan/scan.ts:264-267 | Entries separated by a Windows line ending, `\r\n`, parse to the entries, with no carriage return left in them. |
| Evaluator.BlankLineKept | tasks/scan/scan.ts:265-267 | A blank line in the input stays in the blacklist as an empty entry. |
| Evaluator.Find | tasks/scan/scan.ts:608 | The search returns the first entry whose upper-cased text equals the key: every entry before it differs. It returns none exactly when no entry matches. |
| Evaluator.BlacklistedIff | tasks/scan/scan.ts:606-610 | A name is blacklisted exactly when it is not empty and some entry equals it after upper-casing both. |
| Evaluator.BlacklistExactMatch | tasks/scan/scan.ts:607-608 | "cve-2021-1234" matches "CVE-2021-1234". "CVE-2021-12345" does not match it: the test is equality, not a prefix test. |
| Evaluator.BlacklistHitsEmptyIff | tasks/scan/scan.ts:606-611 | There are no blacklist hits exactly when no finding's name is blacklisted. |
| Evaluator.BlacklistFailureTexts | tasks/scan/scan.ts:609 | Each hit gives one failure message naming it, in order. |
| Evaluator.BlacklistHitsStep | tasks/scan/scan.ts:606-611 | Each further finding adds its message exactly when it is blacklisted. |
| Evaluator.FailureCount | tasks/scan/scan.ts:580-612 | The number of failures is one per failing threshold plus one per blacklist hit. Every check runs. |
| Evaluator.PassesIff | tasks/scan/scan.ts:580-612 | The evaluation passes exactly when no threshold is reached and, if the blacklist check runs, no finding is blacklisted. |
| Evaluator.SingleHighFindingFails | tasks/scan/scan.ts:581-589 | A high threshold of "1" with one high finding gives exactly the high severity failure message and nothing else. |
| Evaluator.EmptyReport | tasks/scan/scan.ts:580-600 | An empty report has empty buckets. It fails only a threshold that 0 already reaches. |
| Evaluator.EvaluatePolicies | tasks/scan/scan.ts:580-612 | The three checks append exactly the reference failure list to the task result, in the order high, medium, blacklist. |
| Evaluator.CheckBlacklist | tasks/scan/scan.ts:606-611 | The loop appends one message per blacklisted finding, in report order. |
| Markdown.AppendRow | tasks/scan/scan.ts:515-517 | A summary row is appended only when its field is truthy. |
| Markdown.AppendRows | tasks/scan/scan.ts:548-550 | The loop appends one table row per finding, in order. |
| Markdown.RenderMarkdown | tasks/scan/scan.ts:508-554 | Appending piece by piece builds exactly the reference report. |
| Markdown.RowLines | tasks/scan/scan.ts:549 | Row i is the table line of finding i. |
| Markdown.RowsAsLines | tasks/scan/scan.ts:548-550 | The appended rows are exactly the row lines, each ended by a line feed. |
| Markdown.SummaryAsLines | tasks/scan/scan.ts:511-537 | The summary is the heading, a blank line, the image line and the separator. Then come the rows for Registry, Repository, Tag, Image ID, Image Digest and Base OS, in that order, each only when its field is truthy. Every line ends with a line feed. |
| Markdown.TableReportLines | tasks/scan/scan.ts:544-551 | With findings, read line by line, the report is the summary, a blank line, the heading and a blank line. Then come the table header, the separator and one row per finding in order, and nothing after the last line feed. |
| Markdown.NoticeReportLines | tasks/scan/scan.ts:552-554 | Without findings, the section is the single notice line, not ended by a line feed. |
| Markdown.MarkdownLines | tasks/scan/scan.ts:508-554 | The report splits into exactly the reference line list, whenever the interpolated fields hold no line breaks. |
| Markdown.MarkdownFile | tasks/scan/scan.ts:569 | The output file is the level-two heading line, a blank line, then the report's own lines. |
| Standalone.FlagValue | tasks/scan/scan.ts:342-344 | Reading an option back gives the text after `-e NAME=`. |
| Standalone.FlagRoundTrip | tasks/scan/scan.ts:342-344 | An option is empty exactly when its value is missing or empty. Otherwise it carries exactly that value. |
| Standalone.ScanLayersRoundTrip | tasks/scan/scan.ts:348 | The layer option is present exactly when layer scanning is on, and then sets SCANNER_SCAN_LAYERS to true. |
| Standalone.SchemeLength | tasks/scan/scan.ts:346 | The scheme removed is 8, 7 or 0 characters long, and never longer than the URL. |
| Standalone.SchemeLengthMatches | tasks/scan/scan.ts:346 | 8 characters go exactly when the URL starts with `https://` in any letter case, 7 exactly when it starts with `http://` in any letter case, and none otherwise. |
| Standalone.StripScheme | tasks/scan/scan.ts:346 | Stripping the scheme leaves a suffix of the URL; `SchemeLengthMatches` says which prefix goes. |
| Standalone.FirstSegment | tasks/scan/scan.ts:346 | The first segment is the prefix before the first slash, or the whole text. It holds no slash. |
| Standalone.NvRegistryUrlParam | tasks/scan/scan.ts:346 | A missing URL gives an empty prefix. Otherwise the prefix is the host of the scheme-less URL, holding no slash, followed by one slash. |
| Standalone.NvRegistryOfSchemeUrl | tasks/scan/scan.ts:346 | A URL whose scheme is `http://` or `https://`, in any mix of letter cases, followed by a host and a path gives `host/`. |
| Standalone.NvRegistryOfHttpsUrl | tasks/scan/scan.ts:346 | `https://host/path` gives `host/`. |
| Standalone.NvRegistryOfBareHost | tasks/scan/scan.ts:346 | A URL without a scheme keeps its text up to the first slash. |
| Standalone.FirstSegmentOf | tasks/scan/scan.ts:346 | A slash-free host followed by a path gives the host. |
| Orchestrator.RunRemote | tasks/scan/scan.ts:405-476 | The run ends as the reference function says. The number of requests is given. The first request is the credentials without a token. After a successful authentication every later request carries the session token. The scan requests name the inputs' registry with layer scanning on. A run with a report ends with a sign-out. |
| Orchestrator.Evaluate | tasks/scan/scan.ts:481-612 | After a report, the warnings, the summary attachment, the optional output file and the policy failures are those of the reference outcome. The task result then holds exactly the report's policy failures. |
| Orchestrator.RunFailsIff | tasks/scan/scan.ts:423-612 | A finished run fails exactly when a call to the controller failed, a threshold was reached, or, while the blacklist check runs, a finding is blacklisted. |
| Orchestrator.AuthFailureStopsRun | tasks/scan/scan.ts:423-432 | A failed authentication logs the formatted error and fails with its message. It sends no further request and produces no report. |
| Orchestrator.RetriesDoNotChangeOutcome | tasks/scan/scan.ts:436-462 | 304 replies before a report leave the outcome unchanged. They only add requests. |
| Orchestrator.ReportedRun | tasks/scan/scan.ts:556-572 | There is one warning per finding. The report is attached under `<image id>.md`. The output file exists exactly when its path is set, and it holds the report under the heading. |
| JsText.Trim | tasks/scan/scan.ts:266 | The result has no leading or trailing JavaScript whitespace. It is the middle of the input, and only whitespace is removed on either side. |
| JsText.TrimIdempotent | tasks/scan/scan.ts:266 | Trimming twice is trimming once. |
| JsText.SplitLines | tasks/scan/scan.ts:265 | There is at least one piece, and no piece holds a line feed. |
| JsText.SplitAfterCrlfLine | tasks/scan/scan.ts:265 | A carriage return right before a line feed is consumed with it: a one-line text followed by `\r\n` contributes exactly that text as a piece. |
| JsText.SplitLinesCount | tasks/scan/scan.ts:265 | There is one piece more than there are line feeds. |
| JsText.SplitJoinLines | tasks/scan/scan.ts:265 | Splitting one-line pieces joined by line feeds gives the pieces back. |
| JsText.JoinSplitLines | tasks/scan/scan.ts:265 | Joining the pieces of a text without carriage returns gives the text back. |
| JsText.SplitLinesOfLines | tasks/scan/scan.ts:508-554 | Text built of lines, each ended by a line feed, and then a tail splits into those lines followed by the tail's pieces. |
| JsText.ToUpper | tasks/scan/scan.ts:607 | Each character is mapped to its ASCII upper case, and the length is kept. |
| JsText.ToLower | tasks/scan/scan.ts:487 | Each character is mapped to its ASCII lower case, and the length is kept. |
| JsText.ToNumberOfIntToString | tasks/scan/scan.ts:251 | Unary plus on the decimal text of an integer gives that integer. |
| JsText.DigitsValueOfNatToString | tasks/scan/scan.ts:587 | The decimal text of a count reads back as that count. |

## Left out

- HTTP and TLS (`request-promise-native`) are not modelled. Each call is replaced by its reply: a success body or the error the client raises.
- The `tl.*` input and endpoint lookups, `uuidV4`, `ti._writeLine` log lines and `JSON.stringify(report, null, 2)` are not modelled. The inputs are given as a record.
- The JSON report file (lines 575-578) is not modelled. The build-summary upload goes through `tasks/scan/helper.ts`, which is not part of this model. The model records the attachment's name and content.
- The choice of scanner type and the rejection of ACR registry connections (lines 187-242) are input glue and are not modelled.
- The standalone script: writing it, running docker and reading `scan_result.json` (lines 350-400), and the license file are not modelled. Only the parameter strings of lines 342-348 are modelled.
- The `isAvailable` probe and its request, `ApiClient.ProbeRequest`, are modelled, but no modelled code uses them, because `run` does not call `isAvailable` either.
- `unauthenticate` is not awaited. The model records its request and ignores its reply.
- RunRemote: the real loop is unbounded. With a finite reply sequence that runs out while the controller still answers 304, the model reports a run that has not finished.
- FailureMessage: when a failed reply has no body, reading `response.error.error` throws a TypeError. Its message then fails the task from the outer `catch`. The model records the message as undefined.
- ThresholdValue: unary `+` is modelled only for decimal integers with an optional sign, after trimming. Fractions, exponents, hexadecimal and `Infinity` give NaN in the model, and a NaN threshold never fails.
- ToUpper and ToLower map ASCII letters only. The full Unicode case mapping of JavaScript is not modelled.
- A report whose `vulnerabilities` field is missing, or a finding without a `severity`, makes the code throw a TypeError (line 487). A finding without a `name` throws only when the blacklist check runs (line 607); elsewhere the undefined name is collected and rendered. The model always has a list, and names and severities are always strings.
- Authenticate: a success body without a `token` object makes the code throw, and a `token` object without its own `token` stores undefined (line 98). The model's reply always carries a token string.
- Registry credentials that are `undefined` are left out of the JSON body by `JSON.stringify`. The model's registry fields are always strings.
- The score of a finding is kept as the text it renders to, because the task only interpolates it.
