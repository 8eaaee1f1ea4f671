/**
 * buildUpstreamRequest: the url and headers of the request for one feed's
 * GTFS Realtime data, with the API key passed in one of three ways: in place
 * of a `{{API_KEY}}` placeholder in the url, as a query parameter, or as a
 * header (with the `apikey ` prefix TfNSW expects on Authorization).
 *
 * encodeURIComponent and the URL class are not part of this model: the
 * first is the parameter `encodeComponent`; `setQuery(url, name, value)` is
 * what `new URL(url)`, `searchParams.set(name, value)` and `toString()` give,
 * or the error `new URL` throws on a url it cannot parse.
 */
module Upstream {
  import opened Results
  import opened Strings
  import opened Registry

  const Placeholder := "{{API_KEY}}"

  /** The accept header of every upstream request. */
  const Accept := "application/x-protobuf, application/octet-stream;q=0.9, */*;q=0.1"

  const NoUrl := "GTFS_RT_URL is not set"
  const NoApiKey := "GTFS_API_KEY is not set"

  /** A request: its url and its headers, by name as written. */
  datatype Request = Request(url: string, headers: map<string, string>)

  function AcceptOnly(): map<string, string> {
    map["accept" := Accept]
  }

  /** `(feed?.url || env.GTFS_RT_URL || "").trim()`. */
  function BaseUrl(env: Env, feed: Option<Feed>): string {
    Trim(OrElse(if feed.Some? then feed.value.url else "", env.url))
  }

  /** `((feed?.auth_query ?? env.GTFS_RT_AUTH_QUERY) || "").trim()`: a feed's own setting wins, even an empty one. */
  function QueryName(env: Env, feed: Option<Feed>): string {
    Trim(if feed.Some? && feed.value.authQuery.Some? then feed.value.authQuery.value else env.authQuery)
  }

  /** `((feed?.auth_header ?? env.GTFS_RT_AUTH_HEADER) || "").trim()`. */
  function HeaderName(env: Env, feed: Option<Feed>): string {
    Trim(if feed.Some? && feed.value.authHeader.Some? then feed.value.authHeader.value else env.authHeader)
  }

  /**
   * The value of the credential header: `apikey <key>` exactly when the
   * header is Authorization (in any case) and the key does not already start
   * with `apikey ` or `bearer ` (in any case); the key verbatim otherwise.
   */
  function AuthValue(headerName: string, apiKey: string): (v: string)
    ensures v == "apikey " + apiKey <==>
      Lower(headerName) == "authorization" && !StartsWith(Lower(apiKey), "apikey ") && !StartsWith(Lower(apiKey), "bearer ")
    ensures v != "apikey " + apiKey ==> v == apiKey
  {
    var low := Lower(apiKey);
    if Lower(headerName) == "authorization" && !StartsWith(low, "apikey ") && !StartsWith(low, "bearer ") then
      "apikey " + apiKey
    else
      apiKey
  }

  /**
   * The tests of AuthValue are case-insensitive comparisons: the header name
   * is `authorization` in any case, and the key's first seven characters are
   * neither `apikey ` nor `bearer ` in any case.
   */
  lemma AuthValueIgnoresCase(headerName: string, apiKey: string)
    ensures AuthValue(headerName, apiKey) == "apikey " + apiKey <==>
      && EqualsIgnoringCase(headerName, "authorization")
      && !(7 <= |apiKey| && EqualsIgnoringCase(apiKey[..7], "apikey "))
      && !(7 <= |apiKey| && EqualsIgnoringCase(apiKey[..7], "bearer "))
  {
    AsciiLower();
    LowerMatches(headerName, "authorization");
    LowerStartsWith(apiKey, "apikey ");
    LowerStartsWith(apiKey, "bearer ");
  }

  lemma AsciiLower()
    ensures forall k :: 0 <= k < |"authorization"| ==> !('A' <= "authorization"[k] <= 'Z') && "authorization"[k] < '\U{80}'
    ensures forall k :: 0 <= k < |"apikey "| ==> !('A' <= "apikey "[k] <= 'Z') && "apikey "[k] < '\U{80}'
    ensures forall k :: 0 <= k < |"bearer "| ==> !('A' <= "bearer "[k] <= 'Z') && "bearer "[k] < '\U{80}'
  {
  }

  /** buildUpstreamRequest: `url` is rewritten in place and `headers[headerName]` is added to the headers object. */
  method BuildUpstreamRequest(
    env: Env,
    feed: Option<Feed>,
    encodeComponent: string -> string,
    setQuery: (string, string, string) -> Result<string, string>)
    returns (r: Result<Request, string>)
    ensures BaseUrl(env, feed) == [] ==> r == Err(NoUrl)
    // the placeholder strategy: every `{{API_KEY}}` replaced by the encoded key, no credential header
    ensures BaseUrl(env, feed) != [] && Contains(BaseUrl(env, feed), Placeholder) ==>
      r == if Trim(env.apiKey) == [] then Err(NoApiKey)
           else Ok(Request(ReplaceAll(BaseUrl(env, feed), Placeholder, encodeComponent(Trim(env.apiKey))), AcceptOnly()))
    // the query strategy: the url with the parameter set, no credential header
    ensures BaseUrl(env, feed) != [] && !Contains(BaseUrl(env, feed), Placeholder) && QueryName(env, feed) != [] && Trim(env.apiKey) != [] ==>
      var u := setQuery(BaseUrl(env, feed), QueryName(env, feed), Trim(env.apiKey));
      && (r.Err? <==> u.Err?)
      && (r.Ok? ==> r.value == Request(u.value, AcceptOnly()))
    // the header strategy, or no credential at all when there is no key
    ensures BaseUrl(env, feed) != [] && !Contains(BaseUrl(env, feed), Placeholder) && (QueryName(env, feed) == [] || Trim(env.apiKey) == []) ==>
      r == Ok(Request(BaseUrl(env, feed),
        if HeaderName(env, feed) != [] && Trim(env.apiKey) != []
        then AcceptOnly()[HeaderName(env, feed) := AuthValue(HeaderName(env, feed), Trim(env.apiKey))]
        else AcceptOnly()))
  {
    hide Trim, IsSpace, TrimStart, TrimEnd, IndexOf, Split, Join, ReplaceAll, Lower, StartsWith;
    var url := BaseUrl(env, feed);
    if url == [] {
      return Err(NoUrl);
    }
    var apiKey := Trim(env.apiKey);
    if Contains(url, Placeholder) {
      if apiKey == [] {
        return Err(NoApiKey);
      }
      url := ReplaceAll(url, Placeholder, encodeComponent(apiKey));
      return Ok(Request(url, AcceptOnly()));
    }
    var qpName := QueryName(env, feed);
    if qpName != [] && apiKey != [] {
      var u := setQuery(url, qpName, apiKey);
      if u.Err? {
        return Err(u.error);
      }
      return Ok(Request(u.value, AcceptOnly()));
    }
    var headerName := HeaderName(env, feed);
    var headers := AcceptOnly();
    if headerName != [] && apiKey != [] {
      var hn := Lower(headerName);
      var low := Lower(apiKey);
      if hn == "authorization" && !StartsWith(low, "apikey ") && !StartsWith(low, "bearer ") {
        headers := headers[headerName := "apikey " + apiKey];
      } else {
        headers := headers[headerName := apiKey];
      }
    }
    return Ok(Request(url, headers));
  }
}
