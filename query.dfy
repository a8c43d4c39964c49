/**
 * The detail query of lib/query.ts: its cache key, its query function
 * (which unwraps the JSON envelope of lib/api.ts) and its retry predicate.
 */
module Query {
  import opened Wrappers

  /** `Resource<T>` of lib/api.ts (`type` is renamed `kind`). */
  datatype Resource<T> = Resource(id: string, kind: string, attributes: T)

  /** `Single<T>` of lib/api.ts: the envelope of `GET /characters/:slug`. */
  datatype Single<T> = Single(data: Resource<T>)

  /** The attributes of a character that the core reads; the display fields are left out. */
  datatype CharacterAttributes = CharacterAttributes(slug: string, name: string)

  /** What the HTTP client reports on failure: a response with a status, or none at all. */
  datatype HttpResponse = HttpResponse(status: int)
  datatype AxiosError = AxiosError(response: Option<HttpResponse>)

  /** A TanStack Query key: an array of strings. */
  type QueryKey = seq<string>

  /** The key of the detail query of one character. */
  function CharacterKey(slug: string): QueryKey
  {
    ["character", slug]
  }

  /** The key family that the bookmark toggle invalidates when it settles. */
  const SavedFamily: QueryKey := ["characters", "saved"]

  /** TanStack Query's partial key match: `filter` is a prefix of `key`. */
  predicate MatchesFamily(key: QueryKey, filter: QueryKey)
  {
    |filter| <= |key| && key[..|filter|] == filter
  }

  /** Distinct slugs give distinct cache entries. */
  lemma CharacterKeyInjective(a: string, b: string)
    ensures CharacterKey(a) == CharacterKey(b) <==> a == b
  {
    if CharacterKey(a) == CharacterKey(b) {
      assert CharacterKey(a)[1] == a && CharacterKey(b)[1] == b;
    }
  }

  /** Invalidating the saved family never touches a character's detail entry. */
  lemma SavedInvalidationSparesDetail(slug: string)
    ensures !MatchesFamily(CharacterKey(slug), SavedFamily)
  {
    assert CharacterKey(slug)[0] != SavedFamily[0] by {
      assert |CharacterKey(slug)[0]| != |SavedFamily[0]|;
    }
  }

  /** The query function: the body of the response is a `Single` envelope; the result is its attributes. */
  function CharacterQueryFn(response: Single<CharacterAttributes>): CharacterAttributes
  {
    response.data.attributes
  }

  /** `error.response?.status === 404`; an error without a response is never a 404. */
  predicate IsNotFound(error: AxiosError)
  {
    error.response.Some? && error.response.value.status == 404
  }

  /** The `retry` option: a 404 is final, anything else is retried while `failureCount < 3`. */
  function Retry(failureCount: int, error: AxiosError): bool
  {
    if IsNotFound(error) then false else failureCount < 3
  }

  lemma NotFoundNeverRetried(failureCount: int, error: AxiosError)
    requires IsNotFound(error)
    ensures !Retry(failureCount, error)
  {
  }

  lemma OtherFailuresRetriedBelowThree(failureCount: int, error: AxiosError)
    requires !IsNotFound(error)
    ensures Retry(failureCount, error) <==> failureCount < 3
  {
  }

  /** Once a failure is not retried at count `n`, it is not retried at any later count. */
  lemma RetryMonotone(n: int, m: int, error: AxiosError)
    requires n <= m
    ensures !Retry(n, error) ==> !Retry(m, error)
  {
  }

  /** The outcome of running the detail query: its result and how many requests were sent. */
  datatype QueryOutcome = QueryOutcome(result: Result<CharacterAttributes, AxiosError>, requests: nat)

  /**
   * How TanStack Query's retryer uses `Retry`: `responses(k)` is what the k-th
   * request (from 0) returns; after a failure it asks `Retry(failureCount, error)`
   * with the number of failures retried so far, and sends another request only
   * if the answer is yes. The network is the parameter `responses`.
   */
  function FetchCharacter(responses: nat -> Result<Single<CharacterAttributes>, AxiosError>, failureCount: nat): (r: QueryOutcome)
    requires failureCount <= 3
    ensures failureCount < r.requests <= 4
    ensures forall k :: failureCount <= k < r.requests - 1 ==>
      responses(k).Failure? && !IsNotFound(responses(k).error)
    ensures r.result.Success? ==>
      responses(r.requests - 1).Success? && r.result.value == CharacterQueryFn(responses(r.requests - 1).value)
    ensures r.result.Failure? ==>
      responses(r.requests - 1) == Failure(r.result.error) && (IsNotFound(r.result.error) || r.requests == 4)
    decreases 3 - failureCount
  {
    match responses(failureCount)
    case Success(response) => QueryOutcome(Success(CharacterQueryFn(response)), failureCount + 1)
    case Failure(error) =>
      if Retry(failureCount, error) then FetchCharacter(responses, failureCount + 1)
      else QueryOutcome(Failure(error), failureCount + 1)
  }

  /** A 404 on the first request ends the query at once: exactly one request. */
  lemma NotFoundIsTerminal(responses: nat -> Result<Single<CharacterAttributes>, AxiosError>)
    requires responses(0).Failure? && IsNotFound(responses(0).error)
    ensures FetchCharacter(responses, 0) == QueryOutcome(Failure(responses(0).error), 1)
  {
  }

  /** When every request fails without a 404, the query gives up after the first request and three retries. */
  lemma TransientFailuresExhaustAfterFour(responses: nat -> Result<Single<CharacterAttributes>, AxiosError>)
    requires forall k :: responses(k).Failure? && !IsNotFound(responses(k).error)
    ensures FetchCharacter(responses, 0).requests == 4
    ensures FetchCharacter(responses, 0).result == Failure(responses(3).error)
  {
  }
}
