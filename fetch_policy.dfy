/**
 * The decision logic of `enhancedFetch` in frontend-config.js, with the
 * network abstracted away: option merging, the CSRF header rule, which
 * errors are retried, the retry cap and the backoff delays. What the network
 * does on each attempt (the token reply and the request outcome) is an
 * oracle `world` indexed by the retry counter of that attempt.
 */
module FetchPolicy {
  import opened Wrappers
  import opened JsString
  import Config

  /** A thrown JavaScript error, by its `name` and `message`. */
  datatype JsError = JsError(name: string, message: string)

  /** The property values an options object carries in this model. */
  datatype OptionValue =
    | Text(text: string)
    | Number(number: int)
    | HeaderSet(headers: map<string, string>)
    | Undefined

  /** A plain options object: property name to value. */
  type Options = map<string, OptionValue>

  const CsrfHeader := "X-CSRF-Token"

  /** `defaultOptions`: POST, JSON content type, the XMLHttpRequest marker and the configured timeout. */
  function DefaultOptions(form: Config.FormSettings): Options {
    map["method" := Text("POST"),
        "headers" := HeaderSet(map["Content-Type" := "application/json",
                                   "X-Requested-With" := "XMLHttpRequest"]),
        "timeout" := Number(form.timeout)]
  }

  /** `{...defaults, ...options}`: every property the caller gives replaces the default one wholesale. */
  function MergeOptions(defaults: Options, options: Options): (merged: Options)
    ensures merged.Keys == defaults.Keys + options.Keys
    ensures forall k :: k in options ==> merged[k] == options[k]
    ensures forall k :: k in defaults && k !in options ==> merged[k] == defaults[k]
  {
    defaults + options
  }

  /** What the token endpoint gave back: a failure, or a parsed body whose `token` may be absent. */
  datatype TokenReply = TokenUnavailable | TokenBody(token: Option<string>)

  /** `getCSRFToken()`: `data.token || null`, and `null` on any failure; it never throws. */
  function GetCsrfToken(reply: TokenReply): (token: Option<string>)
    ensures token.Some? <==> reply.TokenBody? && reply.token.Some? && reply.token.value != ""
    ensures token.Some? ==> token == reply.token
  {
    match reply
    case TokenUnavailable => None
    case TokenBody(t) => if t.Some? && t.value != "" then t else None
  }

  /** The TypeError a property write on `undefined` raises (the V8 wording, kept in pieces). */
  const UndefinedHeadersError :=
    JsError("TypeError", "Cannot set " + "properties " + "of undefined " + "(setting " + "'X-CSRF-Token')")

  /**
   * `fetchOptions.headers['X-CSRF-Token'] = csrfToken`. A missing or
   * undefined `headers` throws; a write to a string or number is ignored,
   * as in a non-strict script.
   */
  function SetCsrfHeader(options: Options, token: string): Result<Options, JsError> {
    if "headers" !in options then Failure(UndefinedHeadersError)
    else
      match options["headers"]
      case HeaderSet(h) => Success(options["headers" := HeaderSet(h[CsrfHeader := token])])
      case Undefined => Failure(UndefinedHeadersError)
      case Text(_) => Success(options)
      case Number(_) => Success(options)
  }

  /** An attempt asks for a token when CSRF is enabled and the endpoint is not the token endpoint. */
  predicate WantsCsrf(settings: Config.Settings, endpoint: string) {
    settings.security.enableCSRF && endpoint != "csrf"
  }

  /** The options one attempt sends, or the error raised while preparing them. */
  function PrepareOptions(settings: Config.Settings, endpoint: string, fetchOptions: Options,
                          reply: TokenReply): Result<Options, JsError> {
    if WantsCsrf(settings, endpoint) then
      match GetCsrfToken(reply)
      case Some(t) => SetCsrfHeader(fetchOptions, t)
      case None => Success(fetchOptions)
    else Success(fetchOptions)
  }

  /** How the network answered one request: a response, or a rejection such as an abort. */
  datatype Attempt<D> =
    | Reply(status: nat, body: Result<D, JsError>)
    | Rejected(error: JsError)

  /** What the network supplies for one attempt. */
  datatype Exchange<D> = Exchange(token: TokenReply, attempt: Attempt<D>)

  /** A request as handed to `fetch`. */
  datatype Request = Request(url: string, options: Options)

  /** The report of one logical call: its result, its requests to the endpoint URL (token requests are not recorded) and the waits between them. */
  datatype Report<D> = Report(result: Result<D, JsError>, requests: seq<Request>, delays: seq<nat>)

  /** `response.ok`. */
  predicate IsOk(status: nat) {
    200 <= status <= 299
  }

  function HttpError(status: nat): JsError {
    JsError("Error", "HTTP error! status: " + NatToString(status))
  }

  function InvalidEndpoint(endpoint: string): JsError {
    JsError("Error", "Invalid endpoint: " + endpoint)
  }

  /** The value or error the `try` block ends with once a request was sent. */
  function Outcome<D>(attempt: Attempt<D>): Result<D, JsError> {
    match attempt
    case Rejected(e) => Failure(e)
    case Reply(status, body) => if IsOk(status) then body else Failure(HttpError(status))
  }

  /** One pass through the `try` block: the request it sent, if any, and how it ended. */
  function RunAttempt<D>(settings: Config.Settings, endpoint: string, url: string, fetchOptions: Options,
                         exchange: Exchange<D>): (seq<Request>, Result<D, JsError>) {
    match PrepareOptions(settings, endpoint, fetchOptions, exchange.token)
    case Failure(e) => ([], Failure(e))
    case Success(sent) => ([Request(url, sent)], Outcome(exchange.attempt))
  }

  /** The `catch` condition on the error itself. */
  predicate IsRetryable(e: JsError) {
    e.name == "AbortError" || Includes(e.message, "timeout")
  }

  /** The whole `catch` decision: a retryable failure while the counter is below the cap. */
  predicate Retries<D>(maxRetries: nat, retries: nat, outcome: Result<D, JsError>) {
    outcome.Failure? && retries < maxRetries && IsRetryable(outcome.error)
  }

  /** The wait before re-entering with counter `retries + 1`. */
  function Backoff(retries: nat): nat {
    1000 * (retries + 1)
  }

  /** What one attempt does: the requests it sent (none or one) and how it ended. */
  type AttemptFn<D> = nat -> (seq<Request>, Result<D, JsError>)

  /**
   * The retry driver of `enhancedFetch` once the endpoint has resolved:
   * make the attempt with counter `retries`; on a failure the `catch`
   * retries, wait `Backoff(retries)` and re-enter with `retries + 1`.
   */
  function RetryLoop<D>(maxRetries: nat, retries: nat, attempt: AttemptFn<D>): Report<D>
    decreases maxRetries - retries
  {
    var (sent, outcome) := attempt(retries);
    if Retries(maxRetries, retries, outcome) then
      var next := RetryLoop(maxRetries, retries + 1, attempt);
      Report(next.result, sent + next.requests, [Backoff(retries)] + next.delays)
    else Report(outcome, sent, [])
  }

  /**
   * The attempt with counter `k` of a call to a resolved `url`: the options
   * merged afresh, a token asked for, the request sent. Re-entering
   * `enhancedFetch` resolves the same URL again, so it is resolved once here.
   */
  function Attempts<D>(settings: Config.Settings, endpoint: string, url: string, options: Options,
                       world: nat -> Exchange<D>): AttemptFn<D> {
    (k: nat) => RunAttempt(settings, endpoint, url, MergeOptions(DefaultOptions(settings.form), options), world(k))
  }

  /** `enhancedFetch(endpoint, options, retries)`. */
  function EnhancedFetch<D>(settings: Config.Settings, loc: Config.Location, endpoint: string,
                            options: Options, retries: nat, world: nat -> Exchange<D>): Report<D> {
    match Config.GetApiUrl(loc, endpoint)
    case None => Report(Failure(InvalidEndpoint(endpoint)), [], [])
    case Some(url) => RetryLoop(settings.form.maxRetries, retries, Attempts(settings, endpoint, url, options, world))
  }

  /** Every attempt sends at most one request, and one that sends none is not retried. */
  ghost predicate SendsOnce<D>(attempt: AttemptFn<D>) {
    forall k :: |attempt(k).0| <= 1 && (attempt(k).0 == [] ==> attempt(k).1.Failure? && !IsRetryable(attempt(k).1.error))
  }

  /** An unknown endpoint fails before any attempt and is never retried. */
  lemma UnknownEndpointFailsFast<D>(settings: Config.Settings, loc: Config.Location, endpoint: string,
                                    options: Options, retries: nat, world: nat -> Exchange<D>)
    requires endpoint !in Config.ApiEndpoints
    ensures EnhancedFetch(settings, loc, endpoint, options, retries, world)
            == Report(Failure(InvalidEndpoint(endpoint)), [], [])
  {
  }

  /**
   * Retries are capped and the backoff is linear: at most
   * `maxRetries - retries` waits, wait `i` lasting `1000 * (retries + i + 1)` ms.
   */
  lemma {:induction false} RetryDelays<D>(maxRetries: nat, retries: nat, attempt: AttemptFn<D>)
    ensures var r := RetryLoop(maxRetries, retries, attempt);
      && |r.delays| <= (if retries <= maxRetries then maxRetries - retries else 0)
      && (forall i :: 0 <= i < |r.delays| ==> r.delays[i] == 1000 * (retries + i + 1))
    decreases maxRetries - retries
  {
    if Retries(maxRetries, retries, attempt(retries).1) {
      RetryDelays(maxRetries, retries + 1, attempt);
    }
  }

  /**
   * Only retryable failures are retried: each wait follows the attempt with
   * counter `k`, which sent request `k - retries` and failed below the cap
   * with an abort or an error mentioning "timeout". At most one request more
   * than waits is sent.
   */
  lemma {:induction false} RetriedAttempts<D>(maxRetries: nat, retries: nat, attempt: AttemptFn<D>)
    requires SendsOnce(attempt)
    ensures var r := RetryLoop(maxRetries, retries, attempt);
      && |r.delays| <= |r.requests| <= |r.delays| + 1
      && forall k :: retries <= k < retries + |r.delays| ==>
           Retries(maxRetries, k, attempt(k).1) && attempt(k).0 == [r.requests[k - retries]]
    decreases maxRetries - retries
  {
    var (sent, outcome) := attempt(retries);
    if Retries(maxRetries, retries, outcome) {
      RetriedAttempts(maxRetries, retries + 1, attempt);
      var r := RetryLoop(maxRetries, retries, attempt);
      var next := RetryLoop(maxRetries, retries + 1, attempt);
      assert r.delays == [Backoff(retries)] + next.delays;
      assert r.requests == sent + next.requests;
      assert |sent| == 1;
      forall k | retries + 1 <= k < retries + |r.delays|
        ensures Retries(maxRetries, k, attempt(k).1) && attempt(k).0 == [r.requests[k - retries]]
      {
        assert r.requests[k - retries] == next.requests[k - (retries + 1)];
      }
    }
  }

  /**
   * The call ends with the outcome of its last attempt, the one with counter
   * `retries + |delays|`, which sent the remaining request if any, and which
   * was not retried: it succeeded, failed with a non-retryable error, or
   * reached the cap.
   */
  lemma {:induction false} FinalAttempt<D>(maxRetries: nat, retries: nat, attempt: AttemptFn<D>)
    ensures var r := RetryLoop(maxRetries, retries, attempt);
      var last := attempt(retries + |r.delays|);
      && r.result == last.1
      && !Retries(maxRetries, retries + |r.delays|, last.1)
      && exists done :: r.requests == done + last.0
    decreases maxRetries - retries
  {
    var (sent, outcome) := attempt(retries);
    if Retries(maxRetries, retries, outcome) {
      FinalAttempt(maxRetries, retries + 1, attempt);
      var next := RetryLoop(maxRetries, retries + 1, attempt);
      assert retries + (1 + |next.delays|) == (retries + 1) + |next.delays|;
      var last := attempt((retries + 1) + |next.delays|);
      var done :| next.requests == done + last.0;
      assert sent + next.requests == (sent + done) + last.0;
    } else {
      assert RetryLoop(maxRetries, retries, attempt).requests == [] + sent;
    }
  }

  /** The error raised for a missing `headers` object is not retried. */
  lemma UndefinedHeadersErrorNotRetryable()
    ensures !IsRetryable(UndefinedHeadersError)
  {
    var message := UndefinedHeadersError.message;
    var a, b, c, d, e := "Cannot set ", "properties ", "of undefined ", "(setting ", "'X-CSRF-Token')";
    assert message == a + b + c + d + e;
    assert forall j :: 0 <= j < |a| ==> a[j] != 'm';
    assert forall j :: 0 <= j < |b| ==> b[j] != 'm';
    assert forall j :: 0 <= j < |c| ==> c[j] != 'm';
    assert forall j :: 0 <= j < |d| ==> d[j] != 'm';
    assert forall j :: 0 <= j < |e| ==> e[j] != 'm';
    CharAbsentFromConcat(a, b, 'm');
    CharAbsentFromConcat(a + b, c, 'm');
    CharAbsentFromConcat(a + b + c, d, 'm');
    CharAbsentFromConcat(a + b + c + d, e, 'm');
    AbsentCharExcludesPattern(message, "timeout", 2);
  }

  /** An HTTP status error never mentions "timeout", so it is never retried. */
  lemma HttpErrorNotRetryable(status: nat)
    ensures !IsRetryable(HttpError(status))
  {
    var message := HttpError(status).message;
    var prefix := "HTTP error! status: ";
    forall j | 0 <= j < |message| ensures message[j] != 'i' {
      if j >= |prefix| {
        assert message[j] == NatToString(status)[j - |prefix|];
      }
    }
    AbsentCharExcludesPattern(message, "timeout", 1);
  }

  /** The attempts of a real call send one request each, unless preparing the options threw. */
  lemma AttemptsSendOnce<D>(settings: Config.Settings, endpoint: string, url: string, options: Options,
                            world: nat -> Exchange<D>)
    ensures SendsOnce(Attempts(settings, endpoint, url, options, world))
  {
    var attempt := Attempts(settings, endpoint, url, options, world);
    var fetchOptions := MergeOptions(DefaultOptions(settings.form), options);
    forall k: nat
      ensures |attempt(k).0| <= 1
      ensures attempt(k).0 == [] ==> attempt(k).1.Failure? && !IsRetryable(attempt(k).1.error)
    {
      var prepared := PrepareOptions(settings, endpoint, fetchOptions, world(k).token);
      if prepared.Failure? {
        assert prepared.error == UndefinedHeadersError;
        UndefinedHeadersErrorNotRetryable();
      }
    }
  }

  /**
   * At most `maxRetries + 1` requests to the endpoint URL per call, and
   * `maxRetries - retries + 1` when the call starts with counter `retries`.
   */
  lemma AtMostMaxRetriesPlusOneRequests<D>(settings: Config.Settings, loc: Config.Location, endpoint: string,
                                           options: Options, retries: nat, world: nat -> Exchange<D>)
    ensures var r := EnhancedFetch(settings, loc, endpoint, options, retries, world);
            var max := settings.form.maxRetries;
            && |r.requests| <= (if retries <= max then max - retries else 0) + 1
            && |r.requests| <= max + 1
  {
    match Config.GetApiUrl(loc, endpoint)
    case None =>
    case Some(url) =>
      var attempt := Attempts(settings, endpoint, url, options, world);
      AttemptsSendOnce(settings, endpoint, url, options, world);
      RetriedAttempts(settings.form.maxRetries, retries, attempt);
      RetryDelays(settings.form.maxRetries, retries, attempt);
  }

  /** A first attempt that fails with a non-retryable error ends the call at once. */
  lemma NonRetryableFailsOnFirstAttempt<D>(maxRetries: nat, retries: nat, attempt: AttemptFn<D>)
    requires attempt(retries).1.Failure? && !IsRetryable(attempt(retries).1.error)
    ensures RetryLoop(maxRetries, retries, attempt) == Report(attempt(retries).1, attempt(retries).0, [])
  {
  }

  /** An HTTP error status is reported on the first attempt, after exactly one request. */
  lemma HttpStatusErrorNotRetried<D>(settings: Config.Settings, loc: Config.Location, endpoint: string,
                                     options: Options, retries: nat, world: nat -> Exchange<D>)
    requires Config.GetApiUrl(loc, endpoint).Some?
    requires world(retries).attempt.Reply? && !IsOk(world(retries).attempt.status)
    requires "headers" in options ==> options["headers"] != Undefined
    ensures var r := EnhancedFetch(settings, loc, endpoint, options, retries, world);
            r.result == Failure(HttpError(world(retries).attempt.status))
            && |r.requests| == 1 && r.delays == []
  {
    HttpErrorNotRetryable(world(retries).attempt.status);
    var fetchOptions := MergeOptions(DefaultOptions(settings.form), options);
    assert fetchOptions["headers"] != Undefined;
  }

  /**
   * A call whose every attempt is aborted makes `maxRetries - retries + 1`
   * requests, waits 1000, 2000, ... ms in between, and ends with the abort.
   * With the default settings and counter 0: four requests, waits of 1, 2, 3 s.
   */
  lemma {:induction false} EveryAttemptAborted<D>(settings: Config.Settings, loc: Config.Location, endpoint: string,
                                                  options: Options, retries: nat, world: nat -> Exchange<D>,
                                                  abort: JsError)
    requires Config.GetApiUrl(loc, endpoint).Some?
    requires retries <= settings.form.maxRetries
    requires abort.name == "AbortError"
    requires forall k :: world(k).attempt == Rejected(abort)
    requires "headers" in options ==> options["headers"] != Undefined
    ensures var r := EnhancedFetch(settings, loc, endpoint, options, retries, world);
            && r.result == Failure(abort)
            && |r.requests| == settings.form.maxRetries - retries + 1
            && r.delays == seq(settings.form.maxRetries - retries, i => 1000 * (retries + i + 1))
  {
    var fetchOptions := MergeOptions(DefaultOptions(settings.form), options);
    assert fetchOptions["headers"] != Undefined;
    var attempt := Attempts(settings, endpoint, Config.GetApiUrl(loc, endpoint).value, options, world);
    forall k ensures |attempt(k).0| == 1 && attempt(k).1 == Failure(abort) {
    }
    AllAborted(settings.form.maxRetries, retries, attempt, abort);
  }

  lemma {:induction false} AllAborted<D>(maxRetries: nat, retries: nat, attempt: AttemptFn<D>, abort: JsError)
    requires retries <= maxRetries
    requires abort.name == "AbortError"
    requires forall k :: |attempt(k).0| == 1 && attempt(k).1 == Failure(abort)
    ensures var r := RetryLoop(maxRetries, retries, attempt);
            && r.result == Failure(abort)
            && |r.requests| == maxRetries - retries + 1
            && r.delays == seq(maxRetries - retries, i => 1000 * (retries + i + 1))
    decreases maxRetries - retries
  {
    if retries < maxRetries {
      AllAborted(maxRetries, retries + 1, attempt, abort);
      var next := RetryLoop(maxRetries, retries + 1, attempt);
      assert [Backoff(retries)] + next.delays == seq(maxRetries - retries, i => 1000 * (retries + i + 1));
    }
  }

  /**
   * The CSRF rule for one attempt whose options carry a headers object: the
   * request always goes out; `X-CSRF-Token` is set to the token exactly when
   * CSRF is enabled, the endpoint is not `csrf` and the token is non-empty;
   * every other header and option is left as it was.
   */
  lemma CsrfHeaderRule(settings: Config.Settings, endpoint: string, fetchOptions: Options, reply: TokenReply)
    requires "headers" in fetchOptions && fetchOptions["headers"].HeaderSet?
    ensures var r := PrepareOptions(settings, endpoint, fetchOptions, reply);
      var before := fetchOptions["headers"].headers;
      var token := GetCsrfToken(reply);
      && r.Success?
      && r.value.Keys == fetchOptions.Keys
      && (forall k :: k in fetchOptions && k != "headers" ==> r.value[k] == fetchOptions[k])
      && r.value["headers"].HeaderSet?
      && r.value["headers"].headers - {CsrfHeader} == before - {CsrfHeader}
      && (WantsCsrf(settings, endpoint) && token.Some? ==>
            CsrfHeader in r.value["headers"].headers && r.value["headers"].headers[CsrfHeader] == token.value)
      && (!(WantsCsrf(settings, endpoint) && token.Some?) ==> r.value == fetchOptions)
  {
  }

  /**
   * Headers the caller supplies replace the default headers wholesale: every
   * request sent goes to the resolved URL and carries exactly the caller's
   * headers, apart from the CSRF token; without caller headers it carries the
   * defaults, apart from the token.
   */
  lemma SentHeaders<D>(settings: Config.Settings, loc: Config.Location, endpoint: string,
                       options: Options, retries: nat, world: nat -> Exchange<D>)
    requires Config.GetApiUrl(loc, endpoint).Some?
    requires "headers" in options ==> options["headers"].HeaderSet?
    ensures var r := EnhancedFetch(settings, loc, endpoint, options, retries, world);
      var expected := if "headers" in options then options["headers"].headers
                      else DefaultOptions(settings.form)["headers"].headers;
      forall i :: 0 <= i < |r.requests| ==>
        && r.requests[i].url == Config.GetApiUrl(loc, endpoint).value
        && "headers" in r.requests[i].options
        && r.requests[i].options["headers"].HeaderSet?
        && r.requests[i].options["headers"].headers - {CsrfHeader} == expected - {CsrfHeader}
  {
    var url := Config.GetApiUrl(loc, endpoint).value;
    var fetchOptions := MergeOptions(DefaultOptions(settings.form), options);
    var attempt := Attempts(settings, endpoint, url, options, world);
    forall k ensures forall q :: q in attempt(k).0 ==> q.url == url && HeadersAsExpected(q, fetchOptions) {
      CsrfHeaderRule(settings, endpoint, fetchOptions, world(k).token);
    }
    SentRequestsFrom(settings.form.maxRetries, retries, attempt, url, fetchOptions);
  }

  /** The request's headers agree with those of `fetchOptions` apart from the CSRF token. */
  ghost predicate HeadersAsExpected(q: Request, fetchOptions: Options) {
    && "headers" in q.options && q.options["headers"].HeaderSet?
    && "headers" in fetchOptions && fetchOptions["headers"].HeaderSet?
    && q.options["headers"].headers - {CsrfHeader} == fetchOptions["headers"].headers - {CsrfHeader}
  }

  /** Every request of the call is one some attempt sent. */
  lemma {:induction false} SentRequestsFrom<D>(maxRetries: nat, retries: nat, attempt: AttemptFn<D>,
                                               url: string, fetchOptions: Options)
    requires forall k :: forall q :: q in attempt(k).0 ==> q.url == url && HeadersAsExpected(q, fetchOptions)
    ensures forall q :: q in RetryLoop(maxRetries, retries, attempt).requests ==>
              q.url == url && HeadersAsExpected(q, fetchOptions)
    decreases maxRetries - retries
  {
    if Retries(maxRetries, retries, attempt(retries).1) {
      SentRequestsFrom(maxRetries, retries + 1, attempt, url, fetchOptions);
    }
  }
}
