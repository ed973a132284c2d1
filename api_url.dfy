/**
 * Joining an API endpoint onto the configured base URL (src/utils/api.ts).
 * The environment lookup of `getApiBaseUrl` is a parameter: the value of
 * `VITE_API_URL`, or `None` when it is not set.
 */
module ApiUrl {
  import opened Wrappers

  /** The base URL: the configured value when it is a non-empty string, otherwise the empty (same-origin) base. */
  function ApiBaseUrl(configured: Option<string>): (base: string)
    ensures configured.Some? && configured.value != "" ==> base == configured.value
    ensures configured.None? || configured.value == "" ==> base == ""
  {
    if configured.Some? then configured.value else ""
  }

  /** The path part of an endpoint: the endpoint itself if it starts with '/', otherwise '/' in front of it. */
  function EndpointPath(endpoint: string): (path: string)
    ensures |path| > 0 && path[0] == '/'
    ensures |endpoint| > 0 && endpoint[0] == '/' ==> path == endpoint
    ensures !(|endpoint| > 0 && endpoint[0] == '/') ==> path[1..] == endpoint
  {
    if |endpoint| > 0 && endpoint[0] == '/' then endpoint else "/" + endpoint
  }

  /** `getApiUrl`: the base followed by the normalised path. */
  function GetApiUrl(base: string, endpoint: string): (url: string)
    ensures |url| > |base| && url[..|base|] == base && url[|base|] == '/'
    ensures url[|base|..] == EndpointPath(endpoint)
  {
    base + EndpointPath(endpoint)
  }

  /** With no base configured the URL is the normalised path. */
  lemma UnconfiguredBaseGivesPath(endpoint: string)
    ensures GetApiUrl(ApiBaseUrl(None), endpoint) == EndpointPath(endpoint)
    ensures GetApiUrl(ApiBaseUrl(Some("")), endpoint) == EndpointPath(endpoint)
  {
  }

  /** Feeding a same-origin URL back into `getApiUrl` leaves it unchanged. */
  lemma SameOriginIdempotent(endpoint: string)
    ensures GetApiUrl("", GetApiUrl("", endpoint)) == GetApiUrl("", endpoint)
  {
    assert "" + EndpointPath(endpoint) == EndpointPath(endpoint);
  }
}
