/**
 * The scan poll loop of the remote scan: the scan request is sent again for as long
 * as the service answers 304 Not Modified; a report ends the loop, and so does any
 * other error, which is fatal. The service is an oracle given as the finite sequence
 * of replies it sends, one per request.
 */
module ScanPoll {
  import opened Wrappers
  import opened NeuVectorApi
  import opened ScanReport

  /** The service's answer to one scan request: the report of the body, or the error raised. */
  type ScanReply = Result<Report, ApiError>

  /** A 304 reply: the scan is still running and the request is sent again at once. */
  predicate IsRetry(reply: ScanReply)
  {
    reply.Failure? && reply.error.statusCode == Some(304)
  }

  /**
   * How the loop ends and after how many requests: with a report, with a fatal error,
   * or, in the model only, with the replies used up while the service still answers 304.
   */
  datatype PollResult = Done(report: Report, requests: nat)
                      | Fatal(error: ApiError, requests: nat)
                      | Exhausted(requests: nat)

  /** The end of the loop when the first `i` replies have been received. */
  function PollFrom(replies: seq<ScanReply>, i: nat): PollResult
    requires i <= |replies|
    decreases |replies| - i
  {
    if i == |replies| then Exhausted(i)
    else match replies[i]
      case Success(report) => Done(report, i + 1)
      case Failure(e) => if e.statusCode == Some(304) then PollFrom(replies, i + 1) else Fatal(e, i + 1)
  }

  /** The end of the loop over the whole reply sequence. */
  function Poll(replies: seq<ScanReply>): PollResult
  {
    PollFrom(replies, 0)
  }

  /** Retries do not change where the loop ends. */
  lemma {:induction false} PollSkipsRetries(replies: seq<ScanReply>, i: nat, k: nat)
    requires i <= k <= |replies|
    requires forall j :: i <= j < k ==> IsRetry(replies[j])
    ensures PollFrom(replies, i) == PollFrom(replies, k)
    decreases k - i
  {
    if i < k {
      PollSkipsRetries(replies, i + 1, k);
    }
  }

  /**
   * The loop stops on the first reply that is not a 304, after exactly one request more
   * than the retries before it: with that reply's report, or with its error.
   */
  lemma PollStopsAtFirstTerminal(replies: seq<ScanReply>, k: nat)
    requires k < |replies| && !IsRetry(replies[k])
    requires forall j :: 0 <= j < k ==> IsRetry(replies[j])
    ensures replies[k].Success? ==> Poll(replies) == Done(replies[k].value, k + 1)
    ensures replies[k].Failure? ==> Poll(replies) == Fatal(replies[k].error, k + 1)
  {
    PollSkipsRetries(replies, 0, k);
  }

  /** k retries followed by a terminal reply take k + 1 requests, whatever comes after. */
  lemma PollRetriesThenTerminal(retries: seq<ScanReply>, terminal: ScanReply, rest: seq<ScanReply>)
    requires forall j :: 0 <= j < |retries| ==> IsRetry(retries[j])
    requires !IsRetry(terminal)
    ensures terminal.Success? ==> Poll(retries + [terminal] + rest) == Done(terminal.value, |retries| + 1)
    ensures terminal.Failure? ==> Poll(retries + [terminal] + rest) == Fatal(terminal.error, |retries| + 1)
  {
    var replies := retries + [terminal] + rest;
    assert replies[|retries|] == terminal;
    assert forall j :: 0 <= j < |retries| ==> replies[j] == retries[j];
    PollStopsAtFirstTerminal(replies, |retries|);
  }

  /** The loop never stops while every reply is a 304. */
  lemma PollAllRetries(replies: seq<ScanReply>)
    requires forall j :: 0 <= j < |replies| ==> IsRetry(replies[j])
    ensures Poll(replies) == Exhausted(|replies|)
  {
    PollSkipsRetries(replies, 0, |replies|);
  }

  /**
   * The loop of the remote scan: sends the registry scan request, always with layer
   * scanning on, until a reply other than 304 arrives. Returns how the loop ended and
   * the requests sent, one per reply consumed.
   */
  method PollScan(client: ApiClient, registry: string, username: string, password: string,
                  repository: string, tag: string, replies: seq<ScanReply>)
    returns (result: PollResult, sent: seq<HttpRequest>)
    ensures result == Poll(replies)
    ensures |sent| == result.requests
    ensures forall q :: q in sent ==> q == client.ScanRepositoryRequest(registry, username, password, repository, tag, true)
  {
    var request := client.ScanRepositoryRequest(registry, username, password, repository, tag, true);
    var i := 0;
    sent := [];
    result := Exhausted(|replies|);
    while i < |replies|
      invariant 0 <= i <= |replies|
      invariant PollFrom(replies, i) == Poll(replies)
      invariant |sent| == i
      invariant forall q :: q in sent ==> q == request
    {
      sent := sent + [request];
      var reply := replies[i];
      if reply.Success? {
        result := Done(reply.value, i + 1);
        break;
      }
      if reply.error.statusCode == Some(304) {
        // the scan is not complete yet; the service call blocks, so there is no wait
        i := i + 1;
        continue;
      }
      result := Fatal(reply.error, i + 1);
      break;
    }
  }
}
