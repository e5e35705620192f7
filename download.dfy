/**
 * The bounded download-retry loop of `extract_relevant_entries_from_feed`.
 * The network is a parameter: it says what each attempt to open an entry's
 * PDF link gives. The loop is specified by `Retry`, the state the loop body
 * leaves after the given number of attempts.
 */
module Download {
  import opened Seqs
  import opened Entries
  import opened Checks

  type Bytes = seq<bv8>

  datatype Option<T> = None | Some(value: T)

  /** What one attempt to open and read a link gives: the body, a timeout, or any other exception. */
  datatype Attempt = Fetched(data: Bytes) | TimedOut | Failed

  /** The outcome of attempt `k` (from 0) to download the PDF of the feed entry at position `i`. */
  type Network = (nat, nat) -> Attempt

  /**
   * Attempt `k` for entry `i` and link `link`. The sentinel `NoPdfFile` is no
   * URL at all (it has no scheme), so `urlopen` rejects it with an error that
   * is not a timeout, on every attempt.
   */
  function AttemptOutcome(network: Network, i: nat, link: string, k: nat): Attempt
  {
    if link == NoPdfFile then Failed else network(i, k)
  }

  /**
   * The loop's variables: attempts made so far, entries appended to
   * `error_entries`, `error_with_pdf_flag`, the last `response` read, and
   * whether the loop has left through `break`.
   */
  datatype RetryState = RetryState(
    attempts: nat,
    errorAppends: nat,
    errorFlag: bool,
    response: Option<Bytes>,
    stopped: bool)

  const Start: RetryState := RetryState(0, 0, false, None, false)

  /** One pass of the loop body for attempt `k` of `n`. */
  function Step(s: RetryState, outcome: Attempt, k: nat, n: nat): RetryState
  {
    match outcome
    case Fetched(data) =>
      s.(attempts := s.attempts + 1, response := Some(data), stopped := true)
    case TimedOut =>
      if k == n - 1 then
        s.(attempts := s.attempts + 1, errorAppends := s.errorAppends + 1, errorFlag := true)
      else
        s.(attempts := s.attempts + 1)
    case Failed =>
      // no `break` here: the loop goes on to the next attempt
      s.(attempts := s.attempts + 1, errorAppends := s.errorAppends + 1, errorFlag := true)
  }

  /** The state after the loop body ran for attempts `0 .. k-1`, or stopped earlier. */
  function RetryAfter(network: Network, i: nat, link: string, n: nat, k: nat): RetryState
    requires k <= n
    decreases k
  {
    if k == 0 then Start
    else
      var s := RetryAfter(network, i, link, n, k - 1);
      if s.stopped then s else Step(s, AttemptOutcome(network, i, link, k - 1), k - 1, n)
  }

  /** The state when all `n` passes of the loop are over. */
  function Retry(network: Network, i: nat, link: string, n: nat): RetryState
  {
    RetryAfter(network, i, link, n, n)
  }

  /** Number of attempts among `0 .. m-1` that failed with something other than a timeout. */
  ghost function FailuresBefore(network: Network, i: nat, link: string, m: nat): nat
  {
    if m == 0 then 0
    else FailuresBefore(network, i, link, m - 1) +
         (if AttemptOutcome(network, i, link, m - 1) == Failed then 1 else 0)
  }

  /** The timeout of the last of `n` attempts, which alone appends for a timeout. */
  ghost predicate LastAttemptTimedOut(network: Network, i: nat, link: string, n: nat, attempts: nat)
  {
    n >= 1 && attempts == n && AttemptOutcome(network, i, link, n - 1) == TimedOut
  }

  /** What the loop state says after `k` passes, whatever the outcomes. */
  ghost predicate RetryInvariant(network: Network, i: nat, link: string, n: nat, k: nat, s: RetryState)
  {
    && s.attempts <= k
    && (!s.stopped ==> s.attempts == k && s.response == None &&
                       forall j :: 0 <= j < k ==> !AttemptOutcome(network, i, link, j).Fetched?)
    && (s.stopped ==> s.attempts >= 1 && s.response.Some? &&
                      AttemptOutcome(network, i, link, s.attempts - 1) == Fetched(s.response.value) &&
                      forall j :: 0 <= j < s.attempts - 1 ==> !AttemptOutcome(network, i, link, j).Fetched?)
    && s.errorAppends == FailuresBefore(network, i, link, s.attempts) +
                         (if LastAttemptTimedOut(network, i, link, n, s.attempts) then 1 else 0)
    && (s.errorFlag <==> s.errorAppends > 0)
  }

  lemma {:induction false} RetryAfterInvariant(network: Network, i: nat, link: string, n: nat, k: nat)
    requires k <= n
    ensures RetryInvariant(network, i, link, n, k, RetryAfter(network, i, link, n, k))
    decreases k
  {
    if k > 0 {
      RetryAfterInvariant(network, i, link, n, k - 1);
    }
  }

  /** Once the loop has stopped, later passes change nothing. */
  lemma {:induction false} RetryStaysStopped(network: Network, i: nat, link: string, n: nat, k: nat, m: nat)
    requires k <= m <= n
    requires RetryAfter(network, i, link, n, k).stopped
    ensures RetryAfter(network, i, link, n, m) == RetryAfter(network, i, link, n, k)
    decreases m - k
  {
    if k < m {
      RetryStaysStopped(network, i, link, n, k, m - 1);
    }
  }

  /** Attempt `j` of `n` is the first that succeeds. */
  ghost predicate IsFirstSuccess(network: Network, i: nat, link: string, n: nat, j: int)
  {
    0 <= j < n && AttemptOutcome(network, i, link, j).Fetched? &&
    forall j' :: 0 <= j' < j ==> !AttemptOutcome(network, i, link, j').Fetched?
  }

  /**
   * At most `n` attempts are made and the loop stops at the first successful
   * one: then the response is that attempt's body; with no success all `n`
   * attempts are made.
   */
  lemma RetryStopsAtFirstSuccess(network: Network, i: nat, link: string, n: nat)
    ensures var r := Retry(network, i, link, n);
      && r.attempts <= n
      && (forall j :: IsFirstSuccess(network, i, link, n, j) ==>
            r.stopped && r.attempts == j + 1 && r.response == Some(AttemptOutcome(network, i, link, j).data))
      && ((forall j :: 0 <= j < n ==> !AttemptOutcome(network, i, link, j).Fetched?) ==>
            !r.stopped && r.attempts == n && r.response == None)
  {
    RetryAfterInvariant(network, i, link, n, n);
  }

  /**
   * Every failure other than a timeout appends the entry once, and so does a
   * timeout on the last attempt; the error flag is set exactly when something
   * was appended.
   */
  lemma RetryErrorAppends(network: Network, i: nat, link: string, n: nat)
    ensures var r := Retry(network, i, link, n);
      && r.errorAppends == FailuresBefore(network, i, link, r.attempts) +
                           (if LastAttemptTimedOut(network, i, link, n, r.attempts) then 1 else 0)
      && (r.errorFlag <==> r.errorAppends > 0)
  {
    RetryAfterInvariant(network, i, link, n, n);
  }

  /** If every one of `n >= 1` attempts times out, the entry is appended exactly once. */
  lemma RetryAllTimeouts(network: Network, i: nat, link: string, n: nat)
    requires n >= 1
    requires forall j :: 0 <= j < n ==> AttemptOutcome(network, i, link, j) == TimedOut
    ensures var r := Retry(network, i, link, n);
      r.attempts == n && r.errorAppends == 1 && r.errorFlag && r.response == None
  {
    RetryAfterInvariant(network, i, link, n, n);
    FailuresNone(network, i, link, n);
  }

  lemma {:induction false} FailuresNone(network: Network, i: nat, link: string, m: nat)
    requires forall j :: 0 <= j < m ==> AttemptOutcome(network, i, link, j) != Failed
    ensures FailuresBefore(network, i, link, m) == 0
  {
    if m > 0 {
      FailuresNone(network, i, link, m - 1);
    }
  }

  lemma {:induction false} FailuresAll(network: Network, i: nat, link: string, m: nat)
    requires forall j :: 0 <= j < m ==> AttemptOutcome(network, i, link, j) == Failed
    ensures FailuresBefore(network, i, link, m) == m
  {
    if m > 0 {
      FailuresAll(network, i, link, m - 1);
    }
  }

  /**
   * The sentinel link is attempted `n` times, every attempt appends the entry
   * to the error list, and the error flag is set.
   */
  lemma RetryNoPdfFile(network: Network, i: nat, n: nat)
    requires n >= 1
    ensures var r := Retry(network, i, NoPdfFile, n);
      r.attempts == n && r.errorAppends == n && r.errorFlag && !r.stopped
  {
    RetryAfterInvariant(network, i, NoPdfFile, n, n);
    FailuresAll(network, i, NoPdfFile, n);
  }

  /** With at least one attempt, a clear error flag means some attempt succeeded. */
  lemma RetryCleanMeansFetched(network: Network, i: nat, link: string, n: nat)
    requires n >= 1
    ensures var r := Retry(network, i, link, n);
      !r.errorFlag ==> r.stopped && r.response.Some? && r.errorAppends == 0
  {
    RetryAfterInvariant(network, i, link, n, n);
  }

  /**
   * The retry loop: `n` is `TIMEOUT_ATTEMPTS` and `errors` the error list so
   * far. Returns the error list afterwards, `error_with_pdf_flag`, the last
   * response read and, as a ghost, the number of download attempts made.
   */
  method DownloadWithRetries(entry: Entry, i: nat, link: string, n: nat, network: Network, errors: seq<Entry>)
    returns (errorsOut: seq<Entry>, errorFlag: bool, response: Option<Bytes>, ghost attempts: nat)
    ensures errorsOut == errors + Repeat(entry, Retry(network, i, link, n).errorAppends)
    ensures errorFlag == Retry(network, i, link, n).errorFlag
    ensures response == Retry(network, i, link, n).response
    ensures attempts == Retry(network, i, link, n).attempts
  {
    errorsOut, errorFlag, response, attempts := errors, false, None, 0;
    ghost var appended := 0;
    var attempt := 0;
    while attempt < n
      invariant attempt <= n
      invariant RetryAfter(network, i, link, n, attempt) == RetryState(attempts, appended, errorFlag, response, false)
      invariant errorsOut == errors + Repeat(entry, appended)
    {
      var outcome := AttemptOutcome(network, i, link, attempt);
      match outcome {
        case Fetched(data) =>
          response := Some(data);
          attempts := attempts + 1;
          RetryStaysStopped(network, i, link, n, attempt + 1, n);
          break;
        case TimedOut =>
          attempts := attempts + 1;
          if attempt == n - 1 {
            errorsOut := errorsOut + [entry];
            appended := appended + 1;
            errorFlag := true;
          }
        case Failed =>
          attempts := attempts + 1;
          errorsOut := errorsOut + [entry];
          appended := appended + 1;
          errorFlag := true;
      }
      attempt := attempt + 1;
    }
  }
}
