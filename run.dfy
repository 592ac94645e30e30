/**
 * The remote scan of the task's `run`: authenticate with the NeuVector controller, poll
 * the registry scan until it completes, sign out, then classify the findings, render the
 * Markdown report and evaluate the policies. The service's replies are given as inputs.
 */
module Orchestrator {
  import opened Wrappers
  import opened JsText
  import opened NeuVectorApi
  import opened ScanReport
  import opened ScanPoll
  import opened TaskStatus
  import opened Evaluator
  import opened Markdown

  /** The task inputs the remote scan reads. */
  datatype RemoteInputs = RemoteInputs(
    scannerUrl: string,
    scannerUsername: string,
    scannerPassword: string,
    strictSsl: bool,
    registryUrl: string,
    registryUsername: string,
    registryPassword: string,
    repository: string,
    tag: string,
    policy: PolicyInputs,
    markdownOutputPath: Option<string>)

  /** A Markdown file attached to the build summary: its name and its content. */
  datatype Attachment = Attachment(name: string, content: string)

  /**
   * What a run reports: whether it finished (it does not while the service keeps
   * answering 304), the `setResult(Failed, ...)` messages, the `tl.error` lines, the
   * `tl.warning` lines, the build summary attachment and the Markdown output file.
   */
  datatype Outcome = Outcome(
    completed: bool,
    failures: seq<Field>,
    errors: seq<string>,
    warnings: seq<string>,
    summary: Option<Attachment>,
    markdownFile: Option<string>)

  /** A failed service call: its formatted error is logged and its `error.error` fails the task. */
  function CallFailed(e: ApiError): Outcome
  {
    Outcome(true, [FailureMessage(e)], [FormatApiError(e)], [], None, None)
  }

  /** The outcome of a run that received a report. */
  function Evaluated(inp: RemoteInputs, report: Report): Outcome
  {
    var vs := report.vulnerabilities;
    var md := MarkdownReport(report);
    Outcome(true, ReportFailures(inp.policy, vs), [], Warnings(vs),
            Some(Attachment(SummaryAttachmentName(report), md)),
            if Present(inp.markdownOutputPath) then Some(MarkdownFile(md)) else None)
  }

  /** The outcome of a run, given the reply to the authentication and the replies to the scan requests. */
  function RemoteRun(inp: RemoteInputs, authReply: Result<AuthReply, ApiError>, replies: seq<ScanReply>): Outcome
  {
    match authReply
    case Failure(e) => CallFailed(e)
    case Success(_) =>
      match Poll(replies)
      case Fatal(e, _) => CallFailed(e)
      case Exhausted(_) => Outcome(false, [], [], [], None, None)
      case Done(report, _) => Evaluated(inp, report)
  }

  /** How many requests a run sends: authentication, the scan requests, and the sign-out after a report. */
  function RequestCount(authReply: Result<AuthReply, ApiError>, replies: seq<ScanReply>): nat
  {
    if authReply.Failure? then 1
    else match Poll(replies)
      case Done(_, n) => n + 2
      case Fatal(_, n) => n + 1
      case Exhausted(n) => n + 1
  }

  /** The registry scan request of a run, without its token header. */
  predicate IsScanRequest(inp: RemoteInputs, q: HttpRequest)
  {
    q.verb == POST && q.uri == ScanRepositoryEndpoint
    && q.body == Some(ScanRepositoryBody(inp.registryUrl, inp.registryUsername, inp.registryPassword,
                                         inp.repository, inp.tag, true))
  }

  /**
   * The remote scan. The authentication goes out first without a token; every later
   * request carries the session token; the scan requests always ask for layer scanning
   * and name the registry of the inputs, even an empty one.
   */
  method RunRemote(inp: RemoteInputs, authReply: Result<AuthReply, ApiError>, replies: seq<ScanReply>)
    returns (out: Outcome, sent: seq<HttpRequest>)
    ensures out == RemoteRun(inp, authReply, replies)
    ensures |sent| == RequestCount(authReply, replies)
    ensures forall k :: 0 <= k < |sent| ==> sent[k].baseUrl == inp.scannerUrl && sent[k].strictSsl == inp.strictSsl
    ensures sent[0].verb == POST && sent[0].uri == AuthEndpoint && sent[0].headers == map[]
    ensures sent[0].body == Some(AuthBody(inp.scannerUsername, inp.scannerPassword))
    ensures authReply.Success? ==>
              forall k :: 1 <= k < |sent| ==> sent[k].headers == map[AuthTokenHeader := authReply.value.token]
    ensures authReply.Success? ==>
              var n := Poll(replies).requests;
              forall k :: 1 <= k <= n ==> IsScanRequest(inp, sent[k])
    ensures authReply.Success? && Poll(replies).Done? ==>
              sent[|sent| - 1].verb == DELETE && sent[|sent| - 1].uri == AuthEndpoint
  {
    var client := new ApiClient(inp.scannerUrl, inp.strictSsl);
    var result := new TaskResult();
    var authRequest, auth := client.Authenticate(inp.scannerUsername, inp.scannerPassword, authReply);
    sent := [authRequest];
    if auth.Failure? {
      result.SetFailed(FailureMessage(auth.error));
      out := Outcome(true, result.failures, [FormatApiError(auth.error)], [], None, None);
      return;
    }
    var poll, scans := PollScan(client, inp.registryUrl, inp.registryUsername, inp.registryPassword,
                                inp.repository, inp.tag, replies);
    sent := sent + scans;
    assert forall k :: 1 <= k < |sent| ==> sent[k] in scans by {
      forall k | 1 <= k < |sent| ensures sent[k] in scans {
        assert sent[k] == scans[k - 1];
      }
    }
    match poll
    case Fatal(e, _) =>
      result.SetFailed(FailureMessage(e));
      out := Outcome(true, result.failures, [FormatApiError(e)], [], None, None);
    case Exhausted(_) =>
      out := Outcome(false, [], [], [], None, None);
    case Done(report, _) =>
      // `unauthenticate` is called without waiting for its reply
      sent := sent + [client.UnauthenticateRequest()];
      out := Evaluate(inp, report, result);
  }

  /**
   * The end of a run with a report: warnings while classifying, the Markdown report,
   * the output file when its path is set, then the three policy checks.
   */
  method Evaluate(inp: RemoteInputs, report: Report, result: TaskResult) returns (out: Outcome)
    requires result.failures == []
    modifies result
    ensures out == Evaluated(inp, report)
    ensures result.failures == ReportFailures(inp.policy, report.vulnerabilities)
  {
    var vs := report.vulnerabilities;
    var names, medium, high, warnings := Classify(vs);
    var md := RenderMarkdown(report);
    var file := None;
    if Present(inp.markdownOutputPath) {
      file := Some(MarkdownFile(md));
    }
    EvaluatePolicies(inp.policy, |high|, |medium|, vs, result);
    out := Outcome(true, result.failures, [], warnings, Some(Attachment(SummaryAttachmentName(report), md)), file);
  }

  // ----- Properties of a run

  /**
   * A finished run fails exactly when a service call failed, or a threshold was reached,
   * or a blacklisted finding was detected while the blacklist check runs.
   */
  lemma RunFailsIff(inp: RemoteInputs, authReply: Result<AuthReply, ApiError>, replies: seq<ScanReply>)
    requires RemoteRun(inp, authReply, replies).completed
    ensures RemoteRun(inp, authReply, replies).failures == [] <==>
              authReply.Success? && Poll(replies).Done?
              && var vs := Poll(replies).report.vulnerabilities;
                 !HighFails(inp.policy, |OfSeverity(vs, "high")|)
                 && !MediumFails(inp.policy, |OfSeverity(vs, "medium")|)
                 && (BlacklistRuns(inp.policy) ==>
                       forall v :: v in vs ==> !Blacklisted(v.name, ParseBlacklist(inp.policy.blacklist)))
  {
    if authReply.Success? && Poll(replies).Done? {
      PassesIff(inp.policy, Poll(replies).report.vulnerabilities);
    }
  }

  /** A run that fails to authenticate sends nothing more and reports the service's error. */
  lemma AuthFailureStopsRun(inp: RemoteInputs, e: ApiError, replies: seq<ScanReply>)
    ensures RemoteRun(inp, Failure(e), replies).failures == [FailureMessage(e)]
    ensures RemoteRun(inp, Failure(e), replies).errors == [FormatApiError(e)]
    ensures RemoteRun(inp, Failure(e), replies).summary == None
    ensures RequestCount(Failure(e), replies) == 1
  {
  }

  /**
   * Retries are invisible in the outcome: k 304 replies before a report give the same
   * outcome as the report alone, and k more requests.
   */
  lemma RetriesDoNotChangeOutcome(inp: RemoteInputs, a: AuthReply, retries: seq<ScanReply>,
                                  report: Report, rest: seq<ScanReply>)
    requires forall j :: 0 <= j < |retries| ==> IsRetry(retries[j])
    ensures RemoteRun(inp, Success(a), retries + [Success(report)] + rest) == Evaluated(inp, report)
    ensures RequestCount(Success(a), retries + [Success(report)] + rest) == |retries| + 3
  {
    PollRetriesThenTerminal(retries, Success(report), rest);
  }

  /**
   * A run with a report warns once per finding, attaches the Markdown report under the
   * image id, and writes the output file only when its path is set, with the report in it.
   */
  lemma ReportedRun(inp: RemoteInputs, a: AuthReply, replies: seq<ScanReply>)
    requires Poll(replies).Done?
    ensures var out := RemoteRun(inp, Success(a), replies);
            var report := Poll(replies).report;
            |out.warnings| == |report.vulnerabilities|
            && out.summary == Some(Attachment(Render(report.imageId) + ".md", MarkdownReport(report)))
            && (out.markdownFile.Some? <==> Present(inp.markdownOutputPath))
            && (out.markdownFile.Some? ==>
                  SplitLines(out.markdownFile.value) == [FileTitle, ""] + SplitLines(MarkdownReport(report)))
  {
  }
}
