/**
 * The node helper's request flow: one fetch of a verse over an HTTP exchange that is given
 * as an oracle, the bounded retry around it, and the GET_VERSE handler that answers the
 * front end with exactly one notification.
 */
module NodeHelper {
  import opened Wrappers
  import opened Text
  import opened Calendar
  import opened VerseSelection
  import opened ApiResponse
  import opened ApiRequest

  /** What one HTTP exchange for an address ends in. */
  datatype HttpOutcome =
    | Response(status: int, body: string, decoded: Result<Json, string>)  // decoded: what JSON.parse gives or throws
    | NetworkError(message: string)
    | Timeout
    | Thrown(message: string)  // `protocol.get` itself throws, as on an address it refuses

  /**
   * What the environment supplies: `encodeURIComponent`, and the exchange for an address on
   * a given attempt (so that a reply may change from one attempt to the next).
   */
  datatype Environment = Environment(encode: string -> string, exchange: (string, nat) -> HttpOutcome)

  /** The endpoint settings the helper holds. */
  datatype ApiConfig = ApiConfig(baseUrl: Option<string>, pattern: Option<string>)

  /** `data.substring(0, 100)`. */
  function Prefix(s: string, n: nat): (r: string)
    ensures |r| <= n && |r| <= |s| && r == s[..|r|]
    ensures |s| <= n ==> r == s
  {
    if |s| <= n then s else s[..n]
  }

  /** fetchVerseFromAPI: the verse data of one attempt, or the message its promise rejects with. */
  function FetchVerseFromApi(config: ApiConfig, reference: string, attempt: nat, env: Environment)
    : (r: Result<VerseData, string>)
    ensures !Configured(config.baseUrl) ==> r == Failure("API endpoint not yet configured")
    ensures Configured(config.baseUrl) && BuildApiUrl(config.baseUrl, config.pattern, reference, env.encode).Failure?
      ==> r == Failure("Invalid verse reference format: " + reference)
    ensures r.Success? ==>
      (&& BuildApiUrl(config.baseUrl, config.pattern, reference, env.encode).Success?
       && var outcome := env.exchange(BuildApiUrl(config.baseUrl, config.pattern, reference, env.encode).value, attempt);
          && outcome.Response? && outcome.status == 200 && outcome.decoded.Success?
          && ParseApiResponse(outcome.decoded.value, reference) == Success(r.value))
  {
    if !Configured(config.baseUrl) then Failure("API endpoint not yet configured")
    else
      match BuildApiUrl(config.baseUrl, config.pattern, reference, env.encode)
      case Failure(e) => Failure(e)
      case Success(url) =>
        match env.exchange(url, attempt)
        case Timeout => Failure("Request timeout")
        case NetworkError(m) => Failure("Network error: " + m)
        case Thrown(m) => Failure(m)
        case Response(status, body, decoded) =>
          if status != 200 then Failure("API returned status " + IntToString(status) + ": " + Prefix(body, 100))
          else
            match decoded
            case Failure(m) => Failure("Failed to parse API response: " + m)
            case Success(json) =>
              match ParseApiResponse(json, reference)
              case Failure(f) => Failure("Failed to parse API response: " + FailureMessage(f))
              case Success(data) => Success(data)
  }

  /** How fetchWithRetry's promise settles; `Undefined` when the loop never runs. */
  datatype RetryOutcome = Resolved(data: VerseData) | Rejected(message: string) | Undefined

  datatype RetryRun = RetryRun(outcome: RetryOutcome, attempts: nat)

  /** What each numbered attempt gives. */
  type Attempts = nat -> Result<VerseData, string>

  /** The attempts of fetchVerseFromAPI for one reference. */
  function AttemptsOf(config: ApiConfig, reference: string, env: Environment): Attempts {
    (k: nat) => FetchVerseFromApi(config, reference, k, env)
  }

  /** The retry loop from attempt `attempt` on: what it settles with and how many attempts it made. */
  function RetryFrom(tries: Attempts, attempt: nat, maxRetries: int): (run: RetryRun)
    requires attempt >= 1
    ensures run.attempts <= if maxRetries >= attempt then maxRetries - attempt + 1 else 0
    ensures run.outcome.Undefined? <==> maxRetries < attempt
    decreases maxRetries - attempt + 1
  {
    if attempt > maxRetries then RetryRun(Undefined, 0)
    else
      match tries(attempt)
      case Success(data) => RetryRun(Resolved(data), 1)
      case Failure(e) =>
        if attempt == maxRetries then RetryRun(Rejected(e), 1)
        else
          var rest := RetryFrom(tries, attempt + 1, maxRetries);
          RetryRun(rest.outcome, rest.attempts + 1)
  }

  /** Attempts `from` up to but not including `to` all failed. */
  predicate FailedBetween(tries: Attempts, from: nat, to: int) {
    forall j: nat :: from <= j < to ==> tries(j).Failure?
  }

  /** A resolved run resolves with the first successful attempt; all attempts before it failed. */
  lemma {:induction false} RetryResolvedMeans(tries: Attempts, attempt: nat, maxRetries: int)
    requires attempt >= 1 && RetryFrom(tries, attempt, maxRetries).outcome.Resolved?
    ensures var run := RetryFrom(tries, attempt, maxRetries);
      var k := attempt + run.attempts - 1;
      && attempt <= k <= maxRetries
      && tries(k) == Success(run.outcome.data)
      && FailedBetween(tries, attempt, k)
    decreases maxRetries - attempt + 1
  {
    if tries(attempt).Failure? {
      RetryResolvedMeans(tries, attempt + 1, maxRetries);
    }
  }

  /** A rejected run made every attempt up to the bound, each failed, and rethrows the last error. */
  lemma {:induction false} RetryRejectedMeans(tries: Attempts, attempt: nat, maxRetries: int)
    requires attempt >= 1 && RetryFrom(tries, attempt, maxRetries).outcome.Rejected?
    ensures var run := RetryFrom(tries, attempt, maxRetries);
      && run.attempts == maxRetries - attempt + 1
      && FailedBetween(tries, attempt, maxRetries + 1)
      && tries(maxRetries) == Failure(run.outcome.message)
    decreases maxRetries - attempt + 1
  {
    if attempt < maxRetries {
      RetryRejectedMeans(tries, attempt + 1, maxRetries);
    }
  }

  /** Conversely, the first successful attempt within the bound is the one the run resolves with. */
  lemma {:induction false} FirstSuccessResolves(tries: Attempts, attempt: nat, k: nat, maxRetries: int)
    requires 1 <= attempt <= k <= maxRetries
    requires FailedBetween(tries, attempt, k) && tries(k).Success?
    ensures RetryFrom(tries, attempt, maxRetries) == RetryRun(Resolved(tries(k).value), k - attempt + 1)
    decreases k - attempt
  {
    if attempt < k {
      assert tries(attempt).Failure?;
      FirstSuccessResolves(tries, attempt + 1, k, maxRetries);
    }
  }

  /** And when every attempt within the bound fails, the run rejects with the last error. */
  lemma {:induction false} AllFailuresReject(tries: Attempts, attempt: nat, maxRetries: int)
    requires 1 <= attempt <= maxRetries
    requires FailedBetween(tries, attempt, maxRetries + 1)
    ensures RetryFrom(tries, attempt, maxRetries)
      == RetryRun(Rejected(tries(maxRetries).error), maxRetries - attempt + 1)
    decreases maxRetries - attempt
  {
    assert tries(attempt).Failure?;
    if attempt < maxRetries {
      AllFailuresReject(tries, attempt + 1, maxRetries);
    }
  }

  /** What the helper sends to the front end. */
  datatype Notification = VerseResult(text: string, reference: string) | VerseError(message: string)

  const DefaultMaxRetries: int := 3
  const DefaultDelayMs: int := 5000

  /** The one notification handleGetVerse sends for a moment. */
  function GetVerseNotification(lists: VerseLists, config: ApiConfig, now: DateTime, env: Environment)
    : (n: Notification)
    requires ValidDateTime(now)
  {
    match GetVerseForDay(lists, GetDayOfYear(now))
    case Failure(e) => VerseError(e)
    case Success(reference) =>
      var outcome := RetryFrom(AttemptsOf(config, reference, env), 1, DefaultMaxRetries).outcome;
      if outcome.Resolved? then VerseResult(outcome.data.text, reference) else VerseError(outcome.message)
  }

  /**
   * A result always carries the reference selected for the day, never one the response
   * reports, and its text is what a successful attempt read; an error carries the selection
   * error or the last attempt's error.
   */
  lemma GetVerseNotificationMeans(lists: VerseLists, config: ApiConfig, now: DateTime, env: Environment)
    requires ValidDateTime(now)
    ensures var day := GetDayOfYear(now);
      var n := GetVerseNotification(lists, config, now, env);
      && (n.VerseResult? ==>
            (&& GetVerseForDay(lists, day) == Success(n.reference)
             && exists k: nat :: 1 <= k <= DefaultMaxRetries
                  && FetchVerseFromApi(config, n.reference, k, env).Success?
                  && FetchVerseFromApi(config, n.reference, k, env).value.text == n.text))
      && (GetVerseForDay(lists, day).Failure? ==> n == VerseError(GetVerseForDay(lists, day).error))
      && (GetVerseForDay(lists, day).Success? && n.VerseError? ==>
            FailedBetween(AttemptsOf(config, GetVerseForDay(lists, day).value, env), 1, DefaultMaxRetries + 1))
  {
    var day := GetDayOfYear(now);
    match GetVerseForDay(lists, day)
    case Failure(_) =>
    case Success(reference) =>
      var tries := AttemptsOf(config, reference, env);
      var run := RetryFrom(tries, 1, DefaultMaxRetries);
      if run.outcome.Resolved? {
        RetryResolvedMeans(tries, 1, DefaultMaxRetries);
        var k := run.attempts;
        assert FetchVerseFromApi(config, reference, k, env) == tries(k);
      } else {
        RetryRejectedMeans(tries, 1, DefaultMaxRetries);
      }
  }

  /** Without an API address every request ends in the same error, after three attempts. */
  lemma UnconfiguredApiError(lists: VerseLists, config: ApiConfig, now: DateTime, env: Environment)
    requires ValidDateTime(now) && !Configured(config.baseUrl)
    requires GetVerseForDay(lists, GetDayOfYear(now)).Success?
    ensures GetVerseNotification(lists, config, now, env) == VerseError("API endpoint not yet configured")
  {
    var reference := GetVerseForDay(lists, GetDayOfYear(now)).value;
    AllFailuresReject(AttemptsOf(config, reference, env), 1, DefaultMaxRetries);
  }

  /**
   * An address `protocol.get` refuses, such as a relative one built from a pattern without a
   * base, makes every attempt reject with the raw error, which the front end gets as it is.
   */
  lemma RefusedAddressError(lists: VerseLists, config: ApiConfig, now: DateTime, env: Environment, message: string)
    requires ValidDateTime(now) && Configured(config.baseUrl)
    requires GetVerseForDay(lists, GetDayOfYear(now)).Success?
    requires BuildApiUrl(config.baseUrl, config.pattern, GetVerseForDay(lists, GetDayOfYear(now)).value, env.encode).Success?
    requires forall k: nat :: env.exchange(BuildApiUrl(config.baseUrl, config.pattern,
      GetVerseForDay(lists, GetDayOfYear(now)).value, env.encode).value, k) == Thrown(message)
    ensures GetVerseNotification(lists, config, now, env) == VerseError(message)
  {
    var reference := GetVerseForDay(lists, GetDayOfYear(now)).value;
    var tries := AttemptsOf(config, reference, env);
    forall k: nat | 1 <= k <= DefaultMaxRetries ensures tries(k) == Failure(message) {
      var url := BuildApiUrl(config.baseUrl, config.pattern, reference, env.encode).value;
      assert env.exchange(url, k) == Thrown(message);
    }
    AllFailuresReject(tries, 1, DefaultMaxRetries);
  }

  /** The node helper, with the state its methods set and the notifications it has sent. */
  class Helper {
    var verseLists: VerseLists
    var apiBaseUrl: Option<string>
    var apiEndpointPattern: Option<string>
    var sent: seq<Notification>

    constructor()
      ensures verseLists == NoVerseLists && apiBaseUrl == None && apiEndpointPattern == None
      ensures sent == []
    {
      verseLists := NoVerseLists;
      apiBaseUrl := None;
      apiEndpointPattern := None;
      sent := [];
    }

    function Config(): ApiConfig
      reads this
    {
      ApiConfig(apiBaseUrl, apiEndpointPattern)
    }

    /** start, with what loadVerseLists and loadAPIConfig read given as inputs. */
    method Start(lists: VerseLists, baseUrl: Option<string>, pattern: Option<string>)
      modifies this
      ensures verseLists == lists && apiBaseUrl == baseUrl && apiEndpointPattern == pattern
      ensures sent == old(sent)
    {
      verseLists := lists;
      apiBaseUrl := baseUrl;
      apiEndpointPattern := pattern;
    }

    /**
     * fetchWithRetry: up to `maxRetries` attempts, returning the first success and
     * rethrowing the last error; between two attempts it waits `delayMs`.
     */
    method FetchWithRetry(reference: string, maxRetries: int, delayMs: int, env: Environment)
      returns (outcome: RetryOutcome, attempts: nat, waitedMs: int)
      ensures RetryFrom(AttemptsOf(Config(), reference, env), 1, maxRetries) == RetryRun(outcome, attempts)
      ensures attempts <= if maxRetries >= 1 then maxRetries else 0
      ensures waitedMs == if attempts == 0 then 0 else (attempts - 1) * delayMs
    {
      var attempt := 1;
      attempts := 0;
      waitedMs := 0;
      while attempt <= maxRetries
        invariant 1 <= attempt && attempts == attempt - 1 && waitedMs == (attempt - 1) * delayMs
        invariant attempt > 1 ==> attempt <= maxRetries
        invariant var tries := AttemptsOf(Config(), reference, env);
          var rest := RetryFrom(tries, attempt, maxRetries);
          RetryFrom(tries, 1, maxRetries) == RetryRun(rest.outcome, rest.attempts + attempts)
        decreases maxRetries - attempt
      {
        var r := FetchVerseFromApi(Config(), reference, attempt, env);
        attempts := attempts + 1;
        if r.Success? {
          outcome := Resolved(r.value);
          return;
        }
        if attempt == maxRetries {
          outcome := Rejected(r.error);
          return;
        }
        waitedMs := waitedMs + delayMs;
        attempt := attempt + 1;
      }
      outcome := Undefined;
    }

    /** handleGetVerse: select the day's reference, fetch it, and send exactly one notification. */
    method HandleGetVerse(now: DateTime, env: Environment)
      requires ValidDateTime(now)
      modifies this
      ensures sent == old(sent) + [GetVerseNotification(verseLists, Config(), now, env)]
      ensures verseLists == old(verseLists) && apiBaseUrl == old(apiBaseUrl)
      ensures apiEndpointPattern == old(apiEndpointPattern)
    {
      var day := GetDayOfYear(now);
      var selected := GetVerseForDay(verseLists, day);
      if selected.Failure? {
        sent := sent + [VerseError(selected.error)];
        return;
      }
      var reference := selected.value;
      var outcome, _, _ := FetchWithRetry(reference, DefaultMaxRetries, DefaultDelayMs, env);
      if outcome.Resolved? {
        sent := sent + [VerseResult(outcome.data.text, reference)];
      } else {
        sent := sent + [VerseError(outcome.message)];
      }
    }

    /** socketNotificationReceived: only GET_VERSE is answered. */
    method SocketNotificationReceived(notification: string, now: DateTime, env: Environment)
      requires ValidDateTime(now)
      modifies this
      ensures notification == "GET_VERSE" ==>
        sent == old(sent) + [GetVerseNotification(verseLists, Config(), now, env)]
      ensures notification != "GET_VERSE" ==> sent == old(sent)
      ensures verseLists == old(verseLists) && apiBaseUrl == old(apiBaseUrl)
      ensures apiEndpointPattern == old(apiEndpointPattern)
    {
      if notification == "GET_VERSE" {
        HandleGetVerse(now, env);
      }
    }
  }
}
