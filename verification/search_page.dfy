/** The penalty search page: the criteria guard shared by the query and the
    search button, the query string it sends, how a failed answer becomes
    the message and details the page shows, and when the query is retried
    and after how long. */
module SearchPage {
  import opened Wrappers
  import opened JsText
  import opened Tables
  import opened Cells
  import opened JsDate
  import opened BlobStore
  import opened SheetSearch
  import opened StorageRoutes

  /** The two search fields as typed. */
  datatype SearchFields = SearchFields(ticketNo: string, vrm: string)

  /** A search needs a ticket number or a registration. */
  predicate HasCriteria(f: SearchFields) {
    f.ticketNo != [] || f.vrm != []
  }

  // ---------------------------------------------------------------------------
  // The query string

  /** Query parameters in order, as `URLSearchParams` holds them. */
  type Params = seq<(string, string)>

  const TicketParam := "ticketNo"
  const VrmParam := "vrm"

  /** `params.get(key)`: the value of the first parameter named `key`. */
  function GetParam(ps: Params, key: string): (r: Option<string>)
    ensures r.Some? ==> (key, r.value) in ps
    ensures r.None? <==> forall i :: 0 <= i < |ps| ==> ps[i].0 != key
  {
    match FindFirst(ps, (p: (string, string)) => p.0 == key)
    case None => None
    case Some(k) => Some(ps[k].1)
  }

  /** Only the fields that are filled in become parameters, ticket first. */
  function SearchParams(f: SearchFields): (ps: Params)
    ensures |ps| <= 2 && (ps == [] <==> !HasCriteria(f))
    ensures forall i :: 0 <= i < |ps| ==> ps[i].1 != [] && ps[i].0 in {TicketParam, VrmParam}
  {
    (if f.ticketNo != [] then [(TicketParam, f.ticketNo)] else [])
    + (if f.vrm != [] then [(VrmParam, f.vrm)] else [])
  }

  /** Reading the query back gives each field that was filled in, and
      nothing for an empty one. */
  lemma SearchParamsRead(f: SearchFields)
    ensures GetParam(SearchParams(f), TicketParam) == (if f.ticketNo != [] then Some(f.ticketNo) else None)
    ensures GetParam(SearchParams(f), VrmParam) == (if f.vrm != [] then Some(f.vrm) else None)
  {
    var ps := SearchParams(f);
    if f.ticketNo != [] {
      assert ps[0] == (TicketParam, f.ticketNo);
    }
    if f.vrm != [] {
      assert ps[|ps| - 1] == (VrmParam, f.vrm);
    }
  }

  /** The route receives a criterion exactly when the page has one, so a
      request the page sends is never refused for a missing query. */
  lemma RouteSeesCriteria(f: SearchFields, c: Container, generic: string -> Time)
    ensures var ps := SearchParams(f);
      (Given(GetParam(ps, TicketParam)) || Given(GetParam(ps, VrmParam))) <==> HasCriteria(f)
    ensures var ps := SearchParams(f);
      HasCriteria(f) ==>
        SearchRoute(c, GetParam(ps, TicketParam), GetParam(ps, VrmParam), generic)
          != Failure(ErrorReply(400, MissingQueryError, None))
  {
    SearchParamsRead(f);
  }

  // ---------------------------------------------------------------------------
  // A failed answer

  /** A thrown error: its name, message, the `details` and `status` the page
      attaches. */
  datatype JsError = JsError(name: string, message: string, details: Option<string>, status: Option<int>)

  /** An error body as parsed; a field that is absent is `None`. */
  datatype ErrorBody = ErrorBody(error: Option<string>, details: Option<string>)

  const ServiceUnavailableMessage := "Service temporarily unavailable"
  const ServiceUnavailableDetails :=
    "The application is temporarily unavailable. This is usually resolved quickly. Please try again in a moment."
  const SearchUnavailableMessage := "Search service temporarily unavailable"
  const SearchUnavailableDetails :=
    "The penalty search service is currently experiencing issues. Please try again in a few minutes."
  const NotFoundMessage := "Search service not found"
  const NotFoundDetails :=
    "Unable to connect to the penalty search service. Please contact support if this issue persists."
  const ServerErrorMessage := "Internal server error"
  const ServerErrorDetails := "The server encountered an error while processing your search. Please try again."
  const InvalidRequestMessage := "Invalid search request"
  const InvalidRequestDetails :=
    "There was an issue with your search request. Please check your details and try again."
  const FailedHead := "Search failed ("
  const FailedTail := ")"
  const UnexpectedDetails := "An unexpected error occurred while searching for penalties."

  /** A status from 400 to 499. */
  predicate ClientError(status: int) {
    400 <= status < 500
  }

  /** The message and default details for a status that is not ok: 502,
      503, 404 and 500 have their own, any other 4xx is an invalid request,
      and anything else names the status. */
  function StatusMessage(status: int): (r: (string, string))
    ensures status == 502 ==> r == (ServiceUnavailableMessage, ServiceUnavailableDetails)
    ensures status == 503 ==> r == (SearchUnavailableMessage, SearchUnavailableDetails)
    ensures status == 404 ==> r == (NotFoundMessage, NotFoundDetails)
    ensures status == 500 ==> r == (ServerErrorMessage, ServerErrorDetails)
    ensures ClientError(status) && status != 404 ==> r == (InvalidRequestMessage, InvalidRequestDetails)
    ensures !ClientError(status) && status !in {500, 502, 503} ==>
              r == (FailedHead + IntToString(status) + FailedTail, UnexpectedDetails)
  {
    if status == 502 then (ServiceUnavailableMessage, ServiceUnavailableDetails)
    else if status == 503 then (SearchUnavailableMessage, SearchUnavailableDetails)
    else if status == 404 then (NotFoundMessage, NotFoundDetails)
    else if status == 500 then (ServerErrorMessage, ServerErrorDetails)
    else if ClientError(status) then (InvalidRequestMessage, InvalidRequestDetails)
    else (FailedHead + IntToString(status) + FailedTail, UnexpectedDetails)
  }

  /** The details shown: the body's `details` when filled, else its `error`
      when filled, else the status's default; an unreadable body keeps the
      default. */
  function BodyDetails(default: string, body: Option<ErrorBody>): (d: string)
    ensures body.Some? && Given(body.value.details) ==> d == body.value.details.value
    ensures body.Some? && !Given(body.value.details) && Given(body.value.error) ==> d == body.value.error.value
    ensures body.None? || (!Given(body.value.details) && !Given(body.value.error)) ==> d == default
  {
    match body
    case None => default
    case Some(b) =>
      if Given(b.details) then b.details.value
      else if Given(b.error) then b.error.value
      else default
  }

  /** The error the query throws for an answer that is not ok. */
  function HttpFailure(status: int, body: Option<ErrorBody>): (e: JsError)
    ensures e.name == ErrorName && e.status == Some(status)
    ensures e.message == StatusMessage(status).0
    ensures e.details == Some(BodyDetails(StatusMessage(status).1, body))
  {
    var (message, default) := StatusMessage(status);
    JsError(ErrorName, message, Some(BodyDetails(default, body)), Some(status))
  }

  const ErrorName := "Error"
  const TypeErrorName := "TypeError"
  const FetchWord := "fetch"
  const NetworkMessage := "Network connection failed"
  const NetworkDetails := "Unable to connect to the server. Please check your internet connection and try again."

  /** The query's `catch`: a `TypeError` whose message mentions fetch
      becomes a network failure; anything else is rethrown as it is. */
  function CatchNetwork(e: JsError): (r: JsError)
    ensures e.name == TypeErrorName && Contains(e.message, FetchWord) ==>
              r == JsError(ErrorName, NetworkMessage, Some(NetworkDetails), None)
    ensures !(e.name == TypeErrorName && Contains(e.message, FetchWord)) ==> r == e
  {
    if e.name == TypeErrorName && Contains(e.message, FetchWord) then
      JsError(ErrorName, NetworkMessage, Some(NetworkDetails), None)
    else e
  }

  /** The answer to a request: a status with the rows or the error body, or
      the request itself throwing. */
  datatype Transport<T> = Answered(status: int, rows: seq<T>, body: Option<ErrorBody>) | Rejected(error: JsError)

  predicate Ok(status: int) {
    200 <= status < 300
  }

  /** The query: no criteria gives no rows without a request; otherwise the
      parameters are sent and the answer is the rows, or an error. */
  function SearchQuery<T>(f: SearchFields, send: Params -> Transport<T>): (r: Result<seq<T>, JsError>)
    ensures !HasCriteria(f) ==> r == Success([])
    ensures HasCriteria(f) && send(SearchParams(f)).Answered? && Ok(send(SearchParams(f)).status) ==>
              r == Success(send(SearchParams(f)).rows)
    ensures HasCriteria(f) && send(SearchParams(f)).Answered? && !Ok(send(SearchParams(f)).status) ==>
              r == Failure(HttpFailure(send(SearchParams(f)).status, send(SearchParams(f)).body))
    ensures HasCriteria(f) && send(SearchParams(f)).Rejected? ==> r == Failure(CatchNetwork(send(SearchParams(f)).error))
  {
    if !HasCriteria(f) then Success([])
    else match send(SearchParams(f))
      case Answered(status, rows, body) =>
        if Ok(status) then Success(rows) else Failure(CatchNetwork(HttpFailure(status, body)))
      case Rejected(e) => Failure(CatchNetwork(e))
  }

  /** Without criteria the answer does not depend on the transport at all:
      no request is made. */
  lemma NoCriteriaNoRequest<T>(f: SearchFields, send: Params -> Transport<T>, other: Params -> Transport<T>)
    requires !HasCriteria(f)
    ensures SearchQuery(f, send) == SearchQuery(f, other) == Success([])
  {
  }

  /** An answer the route gives reaches the page with the route's details,
      or its error text when it has none. */
  lemma RouteDetailsShown(rep: ErrorReply)
    requires rep.error != []
    ensures var e := HttpFailure(rep.status, Some(ErrorBody(Some(rep.error), rep.details)));
      e.details == Some(if Given(rep.details) then rep.details.value else rep.error)
  {
  }

  /** Every failure of the search route is shown with its details: the 503,
      404 and 500 answers all carry them. */
  lemma SearchFailureDetailsShown(c: Container, ticketNo: Option<string>, vrm: Option<string>, generic: string -> Time)
    requires Given(ticketNo) || Given(vrm)
    requires SearchRoute(c, ticketNo, vrm, generic).Failure?
    ensures var rep := SearchRoute(c, ticketNo, vrm, generic).error;
      rep.details.Some? && HttpFailure(rep.status, Some(ErrorBody(Some(rep.error), rep.details))).details
        == Some(if rep.details.value != [] then rep.details.value else rep.error)
  {
  }

  // ---------------------------------------------------------------------------
  // Retries

  /** Never retry a client error; otherwise retry twice. */
  predicate ShouldRetry(failureCount: int, e: JsError) {
    if e.status.Some? && ClientError(e.status.value) then false else failureCount < 2
  }

  function Pow2(n: nat): (r: nat)
    ensures r >= 1
  {
    if n == 0 then 1 else 2 * Pow2(n - 1)
  }

  const MaxDelay := 30000

  /** The wait before retry number `attempt + 1`: a second doubling each
      time, capped at thirty seconds. */
  function RetryDelay(attempt: nat): (d: nat)
    ensures 0 < d <= MaxDelay
    ensures d == MaxDelay || d == 1000 * Pow2(attempt)
  {
    if 1000 * Pow2(attempt) < MaxDelay then 1000 * Pow2(attempt) else MaxDelay
  }

  lemma {:induction false} Pow2Monotone(a: nat, b: nat)
    requires a <= b
    ensures Pow2(a) <= Pow2(b)
    decreases b
  {
    if a < b {
      Pow2Monotone(a, b - 1);
    }
  }

  /** The back-off never shrinks. */
  lemma RetryDelayMonotone(a: nat, b: nat)
    requires a <= b
    ensures RetryDelay(a) <= RetryDelay(b)
  {
    Pow2Monotone(a, b);
  }

  /** From the fifth retry on the wait is the cap. */
  lemma {:induction false} RetryDelayCapped(attempt: nat)
    requires attempt >= 5
    ensures RetryDelay(attempt) == MaxDelay
  {
    Pow2Monotone(5, attempt);
    assert Pow2(5) == 32;
  }

  /** The attempts the query library makes: attempt `n` fails or succeeds as
      `outcome(n)` says; after a failure the policy is asked with the number
      of failures before it, and a retry waits its delay first. The result
      is the number of attempts, the last outcome and the total wait. */
  function RunQuery<T>(outcome: nat -> Result<T, JsError>, failures: nat): (r: (nat, Result<T, JsError>, nat))
    ensures failures < r.0 && (r.0 <= 3 || r.0 == failures + 1)
    ensures r.1 == outcome(r.0 - 1)
    ensures r.1.Failure? ==> !ShouldRetry(r.0 - 1, r.1.error)
    ensures forall n :: failures <= n < r.0 - 1 ==> outcome(n).Failure? && ShouldRetry(n, outcome(n).error)
    decreases 2 - failures
  {
    match outcome(failures)
    case Success(_) => (failures + 1, outcome(failures), 0)
    case Failure(e) =>
      if ShouldRetry(failures, e) then
        var (n, last, waited) := RunQuery(outcome, failures + 1);
        (n, last, RetryDelay(failures) + waited)
      else (failures + 1, outcome(failures), 0)
  }

  /** Whether a failed answer is retried follows its status alone: a 4xx
      answer, whose message names a missing service or an invalid request,
      is final; any other is tried again while fewer than two retries were
      made. */
  lemma RetryFollowsStatus(n: int, status: int, body: Option<ErrorBody>)
    ensures ShouldRetry(n, HttpFailure(status, body)) <==> !ClientError(status) && n < 2
    ensures ClientError(status) <==> StatusMessage(status).0 in {NotFoundMessage, InvalidRequestMessage}
  {
    if !ClientError(status) {
      NotClientMessage(status);
    }
  }

  /** Statuses outside 4xx never get the not-found or invalid-request
      message. */
  lemma NotClientMessage(status: int)
    requires !ClientError(status)
    ensures StatusMessage(status).0 != NotFoundMessage && StatusMessage(status).0 != InvalidRequestMessage
  {
    if status !in {500, 502, 503} {
      var m := StatusMessage(status).0;
      assert m[..7] == "Search ";
      assert m[7] == 'f';
      assert NotFoundMessage[7] == 's';
      assert InvalidRequestMessage[0] == 'I';
    }
  }

  /** A lost connection is not a client error, so it is retried twice. */
  lemma NetworkFailureRetried(n: int, e: JsError)
    requires e.name == TypeErrorName && Contains(e.message, FetchWord)
    ensures ShouldRetry(n, CatchNetwork(e)) <==> n < 2
  {
  }

  /** A query is tried at most three times, waiting at most three seconds
      in all; a client error is never tried again. */
  lemma {:induction false} AtMostThreeAttempts<T>(outcome: nat -> Result<T, JsError>)
    ensures var (n, _, waited) := RunQuery(outcome, 0);
      1 <= n <= 3 && waited <= 3000
    ensures outcome(0).Failure? && outcome(0).error.status.Some? && ClientError(outcome(0).error.status.value) ==>
              RunQuery(outcome, 0) == (1, outcome(0), 0)
  {
    if outcome(0).Failure? && ShouldRetry(0, outcome(0).error) {
      assert Pow2(1) == 2;
      var r1 := RunQuery(outcome, 1);
      if outcome(1).Failure? && ShouldRetry(1, outcome(1).error) {
        assert RunQuery(outcome, 2).2 == 0;
        assert r1.2 == 2000;
      } else {
        assert r1.2 == 0;
      }
    }
  }

  // ---------------------------------------------------------------------------
  // The search button and the error toast

  datatype SearchAction = AskForCriteria | StartSearch

  const SearchRequiredTitle := "Search Required"

  /** The button: without criteria it asks for them and sends nothing. */
  function HandleSearch(f: SearchFields): (a: SearchAction)
    ensures a == StartSearch <==> HasCriteria(f)
  {
    if !HasCriteria(f) then AskForCriteria else StartSearch
  }

  /** A search the button starts always sends a request: the query's
      no-criteria answer is out of its reach. */
  lemma ButtonAlwaysSends<T>(f: SearchFields, send: Params -> Transport<T>)
    requires HandleSearch(f) == StartSearch
    ensures SearchParams(f) != []
    ensures send(SearchParams(f)).Answered? && Ok(send(SearchParams(f)).status) ==>
              SearchQuery(f, send) == Success(send(SearchParams(f)).rows)
  {
  }

  const DefaultTitle := "Search failed"
  const CheckConnectionDetails := "Please check your internet connection and try again."

  /** The toast for a failed query: the error's message and details when
      it has both; with a message only, details chosen from its wording;
      otherwise the generic title and text. */
  function ErrorToast(e: JsError): (t: (string, string))
    ensures e.message != [] && Given(e.details) ==> t == (e.message, e.details.value)
    ensures e.message == [] ==> t == (DefaultTitle, UnexpectedDetails)
    ensures e.message != [] ==> t.0 == e.message
  {
    if e.message != [] && Given(e.details) then (e.message, e.details.value)
    else if e.message != [] then
      (e.message,
       if Contains(e.message, NetworkMessage) then CheckConnectionDetails
       else if Contains(e.message, "service temporarily unavailable") then SearchUnavailableDetails
       else UnexpectedDetails)
    else (DefaultTitle, UnexpectedDetails)
  }

  /** A failed answer's toast shows the status's message and the details
      the query attached. */
  lemma HttpFailureToast(status: int, body: Option<ErrorBody>)
    requires BodyDetails(StatusMessage(status).1, body) != []
    ensures ErrorToast(HttpFailure(status, body)) == (StatusMessage(status).0, BodyDetails(StatusMessage(status).1, body))
  {
  }

  // ---------------------------------------------------------------------------
  // The registration field

  /** What typing into the registration field stores: the text upper-cased. */
  function TypedVrm(v: string): (r: string)
    ensures |r| == |v| && forall i :: 0 <= i < |v| ==> r[i] == UpperChar(v[i])
    ensures ToUpper(r) == r
  {
    ToUpperIdempotent(v);
    ToUpper(v)
  }

  /** Upper-casing what was typed finds the same rows: the search compares
      registrations upper-cased. */
  lemma TypedVrmFindsSameRows(row: Row, ticketNo: Option<string>, v: string)
    ensures RowMatches(row, ticketNo, Some(TypedVrm(v))) <==> RowMatches(row, ticketNo, Some(v))
  {
    ToUpperIdempotent(v);
  }
}
