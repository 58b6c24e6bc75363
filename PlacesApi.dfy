/** The Google Places API service (CraftGooglePlacesApi): how a search or a
    details request is turned into a URL, and how the HTTP exchange is
    reduced to the outcome array the sync service reads.
    The HTTP client is an oracle `http` from the URL to what the client
    does; the API key comes from the plugin settings and is a parameter. */
module PlacesApi {
  import opened Php
  import opened UrlEncoding

  const ApiBase := "https://maps.googleapis.com/maps/api/"
  const SearchEndpoint := "place/findplacefromtext"
  const DetailsEndpoint := "place/details"
  const ServerErrorMessage := "Server Error"

  /** The body of a reply, after `\GuzzleHttp\json_decode($body, true)`:
      the decoded value, or the message of the exception it throws. */
  datatype Body = Decoded(value: Json) | Malformed(message: string)

  /** What `$client->request('GET', $url)` does: returns a response, or
      throws. With the client's default options a 4xx or 5xx reply throws
      too, so it appears here as `Raised`. */
  datatype Transport = Responded(status: int, body: Body) | Raised(message: string)

  /** The three arrays googleApiRequest can return. */
  datatype ApiOutcome =
    | Succeeded(data: Json)      // ['success' => true, 'data' => $data]
    | ServerError                // ['status' => false, 'error' => 'Server Error']
    | Caught(message: string)    // ['success' => false, 'error' => $message]

  /** The PHP array for an outcome, as the callers index it. The server
      error array has a 'status' key and no 'success' key. */
  function ResultArray(o: ApiOutcome): (r: Json)
    ensures r.JMap?
    ensures Truthy(Get(r, "success")) <==> o.Succeeded?
    ensures o.Succeeded? ==> Get(r, "data") == o.data
    ensures "success" in r.members <==> !o.ServerError?
    ensures "status" in r.members <==> o.ServerError?
    ensures o.ServerError? ==> r.members["status"] == JBool(false)
    ensures Get(r, "error") == (match o
                                case Succeeded(_) => JNull
                                case ServerError => JStr(ServerErrorMessage)
                                case Caught(m) => JStr(m))
  {
    match o
    case Succeeded(d) => JMap(map["success" := JBool(true), "data" := d])
    case ServerError => JMap(map["status" := JBool(false), "error" := JStr(ServerErrorMessage)])
    case Caught(m) => JMap(map["success" := JBool(false), "error" := JStr(m)])
  }

  /** The `inputtype` of a search: a phone number exactly when the input
      starts with '+' and is at least 11 bytes long. */
  function InputType(input: string): (t: string)
    ensures t == "phonenumber" || t == "textquery"
    ensures t == "phonenumber" <==> |input| >= 11 && input[0] == '+'
  {
    if |input| > 0 && input[0] == '+' && |input| >= 11 then "phonenumber" else "textquery"
  }

  /** The query-string tail placeSearch appends to the request: after the
      leading '&' it holds exactly the input type and the encoded input. */
  function SearchParams(input: string): (p: string)
    requires IsByteString(input)
    ensures SplitFields(p) == ["", "inputtype=" + InputType(input), "input=" + UrlEncode(input)]
  {
    var f2, f3 := "inputtype=" + InputType(input), "input=" + UrlEncode(input);
    InputTypeField(input);
    EncodedField("input=", input);
    ThreeFields("", f2, f3);
    assert "&" + f2 + "&" + f3 == "" + "&" + (f2 + "&" + f3);
    "&" + f2 + "&" + f3
  }

  /** The query-string tail placeDetails appends to the request: after the
      leading '&' it holds exactly the encoded place id. */
  function DetailsParams(placeId: string): (p: string)
    requires IsByteString(placeId)
    ensures SplitFields(p) == ["", "place_id=" + UrlEncode(placeId)]
  {
    var f := "place_id=" + UrlEncode(placeId);
    EncodedField("place_id=", placeId);
    TwoFields("", f);
    assert "&" + f == "" + "&" + f;
    "&" + f
  }

  /** The URL googleApiRequest fetches; the key goes in as it is. Whatever
      follows the first '?' is `key=`, the key and the parameters, for any
      endpoint without a '?' of its own. */
  function RequestUrl(endpoint: string, key: string, params: string): (u: string)
    ensures NoQueryMark(endpoint) ==> QueryOf(u) == "key=" + key + params
    ensures NoQueryMark(endpoint) ==> PathOf(u) == ApiBase + endpoint + "/json"
  {
    QueryAfterEndpoint(endpoint, "key=" + key + params);
    ApiBase + endpoint + "/json" + "?" + ("key=" + key + params)
  }

  /** The URL googleApiRequest fetches, or None when the key is unset or
      empty, in which case no request is made. */
  function RequestedUrl(key: Option<string>, endpoint: string, params: string): (u: Option<string>)
    ensures u.Some? <==> key.Some? && key.value != ""
  {
    if key.Some? && key.value != "" then Some(RequestUrl(endpoint, key.value, params)) else None
  }

  /** How googleApiRequest reduces what the client did to an outcome, with
      its catch clause taking effect: only a decoded 200 reply succeeds,
      any other returned status is the server error, and an exception
      becomes a failure carrying its message. */
  function Normalise(t: Transport): (o: ApiOutcome)
    ensures o.Succeeded? <==> t.Responded? && t.status == 200 && t.body.Decoded?
    ensures o.Succeeded? ==> o.data == t.body.value
    ensures o == ServerError <==> t.Responded? && t.status != 200
    ensures o.Caught? ==> o.message == (if t.Raised? then t.message else t.body.message)
  {
    match t
    case Raised(m) => Caught(m)
    case Responded(status, body) =>
      if status == 200 then
        match body
        case Decoded(d) => Succeeded(d)
        case Malformed(m) => Caught(m)
      else ServerError
  }

  /** googleApiRequest, with its catch clause matching the exceptions the
      client and the JSON decoder throw (the intended behaviour; see
      GoogleApiRequestAsWritten for the code as it stands). */
  function GoogleApiRequest(key: Option<string>, endpoint: string, params: string,
                            http: string -> Transport): (o: ApiOutcome)
    ensures RequestedUrl(key, endpoint, params).None? ==> o == ServerError
    ensures RequestedUrl(key, endpoint, params).Some? ==>
              o == Normalise(http(RequestedUrl(key, endpoint, params).value))
  {
    match RequestedUrl(key, endpoint, params)
    case None => ServerError
    case Some(url) => Normalise(http(url))
  }

  /** `placeSearch($input)`: the server error without a key, otherwise the
      normalised reply to the search URL (whose query fields
      SearchRequestFields gives). */
  function PlaceSearch(key: Option<string>, input: string, http: string -> Transport): (o: ApiOutcome)
    requires IsByteString(input)
    ensures key.None? || key.value == "" ==> o == ServerError
    ensures key.Some? && key.value != "" ==>
              o == Normalise(http(RequestUrl(SearchEndpoint, key.value, SearchParams(input))))
  {
    GoogleApiRequest(key, SearchEndpoint, SearchParams(input), http)
  }

  /** `placeDetails($placeId)`: the server error without a key, otherwise
      the normalised reply to the details URL (whose query fields
      DetailsRequestFields gives). */
  function PlaceDetails(key: Option<string>, placeId: string, http: string -> Transport): (o: ApiOutcome)
    requires IsByteString(placeId)
    ensures key.None? || key.value == "" ==> o == ServerError
    ensures key.Some? && key.value != "" ==>
              o == Normalise(http(RequestUrl(DetailsEndpoint, key.value, DetailsParams(placeId))))
  {
    GoogleApiRequest(key, DetailsEndpoint, DetailsParams(placeId), http)
  }

  /** The query string of a URL: what follows its first '?'. */
  function QueryOf(url: string): string
    decreases |url|
  {
    if url == [] then ""
    else if url[0] == '?' then url[1..]
    else QueryOf(url[1..])
  }

  /** The path of a URL: what precedes its first '?'. */
  function PathOf(url: string): string
    decreases |url|
  {
    if url == [] then ""
    else if url[0] == '?' then ""
    else [url[0]] + PathOf(url[1..])
  }

  /** No '?' occurs in the string. */
  predicate NoQueryMark(s: string) {
    forall i | 0 <= i < |s| :: s[i] != '?'
  }

  lemma NoQueryMarkConcat(a: string, b: string)
    requires NoQueryMark(a) && NoQueryMark(b)
    ensures NoQueryMark(a + b)
  {
    forall i | 0 <= i < |a + b| ensures (a + b)[i] != '?' {
      if i >= |a| { assert (a + b)[i] == b[i - |a|]; }
    }
  }

  /** A URL made of a path without '?', a '?' and a query splits back
      into that path and that query. */
  lemma {:induction false} QueryAfterPath(path: string, query: string)
    requires NoQueryMark(path)
    ensures QueryOf(path + "?" + query) == query
    ensures PathOf(path + "?" + query) == path
  {
    if path == [] {
      assert path + "?" + query == "?" + query;
      assert ("?" + query)[1..] == query;
    } else {
      QueryAfterPath(path[1..], query);
      assert (path + "?" + query)[1..] == path[1..] + "?" + query;
      assert path == [path[0]] + path[1..];
    }
  }

  /** The path of a request to an endpoint without '?' holds no '?', so
      the query is what follows the '?' after it. */
  lemma QueryAfterEndpoint(endpoint: string, query: string)
    ensures NoQueryMark(endpoint) ==> QueryOf(ApiBase + endpoint + "/json" + "?" + query) == query
    ensures NoQueryMark(endpoint) ==> PathOf(ApiBase + endpoint + "/json" + "?" + query) == ApiBase + endpoint + "/json"
  {
    if NoQueryMark(endpoint) {
      assert NoQueryMark(ApiBase);
      assert NoQueryMark("/json");
      NoQueryMarkConcat(ApiBase, endpoint);
      NoQueryMarkConcat(ApiBase + endpoint, "/json");
      QueryAfterPath(ApiBase + endpoint + "/json", query);
    }
  }

  /** The query string of a request to either endpoint is `key=` followed by
      the endpoint's parameters. */
  lemma RequestQuery(endpoint: string, key: string, params: string)
    requires endpoint == SearchEndpoint || endpoint == DetailsEndpoint
    ensures QueryOf(RequestUrl(endpoint, key, params)) == "key=" + key + params
  {
    assert NoQueryMark(endpoint);
  }

  /** Regrouping the query of a search request: the key, then two fields. */
  lemma QueryOfThree(key: string, b: string, c: string)
    ensures "key=" + key + ("&" + b + "&" + c) == ("key=" + key) + "&" + (b + "&" + c)
  {
  }

  /** Regrouping the query of a details request: the key, then one field. */
  lemma QueryOfTwo(key: string, b: string)
    ensures "key=" + key + ("&" + b) == ("key=" + key) + "&" + b
  {
  }

  /** Regrouping the query of a details request whose key holds one '&'. */
  lemma QueryOfSplitKey(k1: string, k2: string, c: string)
    ensures "key=" + (k1 + "&" + k2) + ("&" + c) == ("key=" + k1) + "&" + (k2 + "&" + c)
  {
  }

  /** The key field holds no '&' when the key holds none. */
  lemma KeyField(key: string)
    requires NoSeparator(key)
    ensures NoSeparator("key=" + key)
  {
    NoSeparatorConcat("key=", key);
  }

  /** The input type field never holds an '&'. */
  lemma InputTypeField(input: string)
    ensures NoSeparator("inputtype=" + InputType(input))
  {
    NoSeparatorConcat("inputtype=", InputType(input));
  }

  /** A search request, when the key is set and holds no '&', carries
      exactly three query fields: the key, the input type, and the
      url-encoded input (which UrlDecodeEncode decodes back to the input). */
  lemma SearchRequestFields(key: string, input: string)
    requires key != "" && NoSeparator(key)
    requires IsByteString(input)
    ensures RequestedUrl(Some(key), SearchEndpoint, SearchParams(input)).Some?
    ensures var url := RequestedUrl(Some(key), SearchEndpoint, SearchParams(input)).value;
            SplitFields(QueryOf(url))
              == ["key=" + key, "inputtype=" + InputType(input), "input=" + UrlEncode(input)]
  {
    var f1, f2, f3 := "key=" + key, "inputtype=" + InputType(input), "input=" + UrlEncode(input);
    RequestQuery(SearchEndpoint, key, SearchParams(input));
    QueryOfThree(key, f2, f3);
    KeyField(key);
    InputTypeField(input);
    EncodedField("input=", input);
    ThreeFields(f1, f2, f3);
  }

  /** A details request, when the key is set and holds no '&', carries
      exactly the key and the url-encoded place id. */
  lemma DetailsRequestFields(key: string, placeId: string)
    requires key != "" && NoSeparator(key)
    requires IsByteString(placeId)
    ensures RequestedUrl(Some(key), DetailsEndpoint, DetailsParams(placeId)).Some?
    ensures var url := RequestedUrl(Some(key), DetailsEndpoint, DetailsParams(placeId)).value;
            SplitFields(QueryOf(url)) == ["key=" + key, "place_id=" + UrlEncode(placeId)]
  {
    RequestQuery(DetailsEndpoint, key, DetailsParams(placeId));
    QueryOfTwo(key, "place_id=" + UrlEncode(placeId));
    KeyField(key);
    EncodedField("place_id=", placeId);
    TwoFields("key=" + key, "place_id=" + UrlEncode(placeId));
  }

  /** The key is not encoded: a key `k1&k2` holding one '&' adds a
      query field `k2` of its own in front of the place id. */
  lemma KeyIsNotEncoded(k1: string, k2: string, placeId: string)
    requires NoSeparator(k1) && NoSeparator(k2)
    requires IsByteString(placeId)
    ensures var url := RequestedUrl(Some(k1 + "&" + k2), DetailsEndpoint, DetailsParams(placeId)).value;
            SplitFields(QueryOf(url)) == ["key=" + k1, k2, "place_id=" + UrlEncode(placeId)]
  {
    var f1, f3 := "key=" + k1, "place_id=" + UrlEncode(placeId);
    RequestQuery(DetailsEndpoint, k1 + "&" + k2, DetailsParams(placeId));
    QueryOfSplitKey(k1, k2, f3);
    KeyField(k1);
    EncodedField("place_id=", placeId);
    ThreeFields(f1, k2, f3);
  }

  /** Without a key the client is never consulted: the outcome is the
      server error whatever the network would have done. */
  lemma NoKeyNoRequest(key: Option<string>, endpoint: string, params: string,
                       http1: string -> Transport, http2: string -> Transport)
    requires key.None? || key.value == ""
    ensures GoogleApiRequest(key, endpoint, params, http1) == ServerError
    ensures GoogleApiRequest(key, endpoint, params, http2) == ServerError
    ensures !("success" in ResultArray(GoogleApiRequest(key, endpoint, params, http1)).members)
  {
  }

  // ---------------------------------------------------------------------
  // googleApiRequest as written. Its `catch (Exception $error)` sits in a
  // namespace that does not import Exception, so it names a class that
  // does not exist and never matches: whatever the client or the JSON
  // decoder throws leaves googleApiRequest (and, for the same reason,
  // getPlaceDetails and getPlaceId of the sync service).
  // ---------------------------------------------------------------------

  /** What googleApiRequest does: returns an outcome array, or lets an
      exception escape. */
  datatype Reply = Returned(outcome: ApiOutcome) | Escaped(message: string)

  function GoogleApiRequestAsWritten(key: Option<string>, endpoint: string, params: string,
                                     http: string -> Transport): (r: Reply)
    ensures r.Returned? ==> r.outcome == GoogleApiRequest(key, endpoint, params, http)
    ensures r.Escaped? <==> GoogleApiRequest(key, endpoint, params, http).Caught?
    ensures r.Escaped? ==> r.message == GoogleApiRequest(key, endpoint, params, http).message
  {
    match RequestedUrl(key, endpoint, params)
    case None => Returned(ServerError)
    case Some(url) =>
      match http(url)
      case Raised(m) => Escaped(m)
      case Responded(status, body) =>
        if status == 200 then
          match body
          case Decoded(d) => Returned(Succeeded(d))
          case Malformed(m) => Escaped(m)
        else Returned(ServerError)
  }

  /** A connection failure while fetching details escapes the request as
      written instead of becoming a failure outcome. */
  lemma ConnectionFailureEscapesAsWritten()
    ensures GoogleApiRequestAsWritten(Some("k"), DetailsEndpoint, DetailsParams("p"),
                                      _ => Raised("Could not resolve host")).Escaped?
    ensures GoogleApiRequest(Some("k"), DetailsEndpoint, DetailsParams("p"),
                             _ => Raised("Could not resolve host")) == Caught("Could not resolve host")
  {
  }

  /** With the catch clause in effect, a request always returns an array,
      and only a decoded 200 reply reads as success to the callers. */
  lemma RequestAlwaysReturnsOutcome(key: Option<string>, endpoint: string, params: string,
                                    http: string -> Transport)
    ensures var r := ResultArray(GoogleApiRequest(key, endpoint, params, http));
            Truthy(Get(r, "success")) <==>
              RequestedUrl(key, endpoint, params).Some? &&
              var t := http(RequestedUrl(key, endpoint, params).value);
              t.Responded? && t.status == 200 && t.body.Decoded?
  {
  }
}
