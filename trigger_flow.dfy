/** The command-line webhook trigger: how it resolves the target URL and the
    credentials from arguments and environment, parses `Key:Value` header
    strings, layers the request headers, selects the payload source, and
    decides where the payload goes for each HTTP method. The network call,
    JSON text handling and printing are outside the model: the decoders are
    parameters and the run ends in an `Effect` that says what would be
    printed or sent. */
module TriggerFlow {
  import opened Wrappers
  import opened PyStr

  const ContentType := "Content-Type"
  const ApplicationJson := "application/json"
  const Authorization := "Authorization"
  const SharedSecret := "X-Shared-Secret"

  const FlowUrl := "FLOW_URL"
  const FlowBearer := "FLOW_BEARER"
  const FlowSecret := "FLOW_SECRET"

  const MissingUrlMessage := "Missing --url or FLOW_URL"

  /** The values the `--method` option accepts. */
  const MethodChoices: set<string> := {"GET", "POST", "PUT", "DELETE"}

  /** A payload of any shape: the utility never looks inside it. */
  datatype Json =
    | JNull
    | JBool(b: bool)
    | JNumber(literal: string)
    | JString(text: string)
    | JArray(items: seq<Json>)
    | JObject(members: map<string, Json>)

  const EmptyObject := JObject(map[])

  /** Python truthiness of an optional string: `None` and `""` are both false. */
  predicate Truthy(o: Option<string>)
  {
    o.Some? && o.value != ""
  }

  // ---------------------------------------------------------------------------
  // parse_headers

  /** One `Key:Value` string as a header entry: split at the first colon, both
      sides stripped; a string without a colon gives no entry. */
  function HeaderEntry(p: string): (r: Option<(string, string)>)
    ensures r.None? <==> ':' !in p
    ensures r.Some? ==> ':' !in r.value.0 && Trimmed(r.value.0) && Trimmed(r.value.1)
  {
    match SplitOnce(p, ':')
    case None => None
    case Some((k, v)) =>
      StripKeepsOut(k, ':');
      Some((Strip(k), Strip(v)))
  }

  /** `p` yields an entry for header `k`. */
  predicate Declares(p: string, k: string)
  {
    HeaderEntry(p).Some? && HeaderEntry(p).value.0 == k
  }

  /** Dictionary assignment in list order: each string that `entry` maps to
      `Some((k, v))` sets `k` to `v`, each one it maps to `None` changes
      nothing. */
  function Assign(entry: string -> Option<(string, string)>, ps: seq<string>): map<string, string>
  {
    if ps == [] then map[] else Put(Assign(entry, ps[..|ps| - 1]), entry(ps[|ps| - 1]))
  }

  function Put(h: map<string, string>, e: Option<(string, string)>): map<string, string>
  {
    match e
    case None => h
    case Some((k, v)) => h[k := v]
  }

  lemma AssignSnoc(entry: string -> Option<(string, string)>, ps: seq<string>, p: string)
    ensures Assign(entry, ps + [p]) == Put(Assign(entry, ps), entry(p))
  {
  }

  /** A key is assigned exactly when some string's entry sets it. */
  lemma {:induction false} AssignKeys(entry: string -> Option<(string, string)>, ps: seq<string>, k: string)
    ensures k in Assign(entry, ps) <==> exists i :: 0 <= i < |ps| && entry(ps[i]).Some? && entry(ps[i]).value.0 == k
  {
    if ps != [] {
      var init := ps[..|ps| - 1];
      AssignKeys(entry, init, k);
      if k in Assign(entry, init) {
        var i :| 0 <= i < |init| && entry(init[i]).Some? && entry(init[i]).value.0 == k;
        assert ps[i] == init[i];
      }
      if exists i :: 0 <= i < |ps| && entry(ps[i]).Some? && entry(ps[i]).value.0 == k {
        var i :| 0 <= i < |ps| && entry(ps[i]).Some? && entry(ps[i]).value.0 == k;
        if i < |init| {
          assert init[i] == ps[i];
        }
      }
    }
  }

  /** The last string whose entry sets a key decides its value. */
  lemma {:induction false} AssignLastWins(entry: string -> Option<(string, string)>, ps: seq<string>, i: nat, k: string, v: string)
    requires i < |ps| && entry(ps[i]) == Some((k, v))
    requires forall j :: i < j < |ps| ==> entry(ps[j]).None? || entry(ps[j]).value.0 != k
    ensures k in Assign(entry, ps) && Assign(entry, ps)[k] == v
  {
    var init := ps[..|ps| - 1];
    if i < |init| {
      assert forall j :: i < j < |init| ==> init[j] == ps[j];
      AssignLastWins(entry, init, i, k, v);
    }
  }

  /** A string whose entry is `None` can be dropped anywhere without changing
      the result. */
  lemma {:induction false} AssignSkipsNone(entry: string -> Option<(string, string)>, before: seq<string>, p: string, after: seq<string>)
    requires entry(p).None?
    ensures Assign(entry, before + [p] + after) == Assign(entry, before + after)
  {
    if after == [] {
      assert before + [p] + after == before + [p];
      assert before + after == before;
      AssignSnoc(entry, before, p);
    } else {
      var front, last := after[..|after| - 1], after[|after| - 1];
      AssignSkipsNone(entry, before, p, front);
      assert before + [p] + after == (before + [p] + front) + [last];
      assert before + after == (before + front) + [last];
      AssignSnoc(entry, before + [p] + front, last);
      AssignSnoc(entry, before + front, last);
    }
  }

  lemma AssignOne(entry: string -> Option<(string, string)>, p: string)
    ensures Assign(entry, [p]) == if entry(p).None? then map[] else map[entry(p).value.0 := entry(p).value.1]
  {
  }

  /** The header map the strings `ps` describe. */
  function Headers(ps: seq<string>): map<string, string>
  {
    Assign(HeaderEntry, ps)
  }

  function HeaderArgs(pairs: Option<seq<string>>): seq<string>
  {
    if pairs.None? then [] else pairs.value
  }

  /** The loop of `parse_headers`, filling a dictionary entry by entry. */
  method ParseHeaders(pairs: Option<seq<string>>) returns (headers: map<string, string>)
    ensures pairs.None? || pairs == Some([]) ==> headers == map[]
    ensures headers == Headers(HeaderArgs(pairs))
  {
    headers := map[];
    if pairs.None? || pairs.value == [] {
      return;
    }
    var ps := pairs.value;
    for i := 0 to |ps|
      invariant headers == Headers(ps[..i])
    {
      var p := ps[i];
      assert ps[..i + 1] == ps[..i] + [p];
      AssignSnoc(HeaderEntry, ps[..i], p);
      if ':' in p {
        var kv := SplitOnce(p, ':').value;
        headers := headers[Strip(kv.0) := Strip(kv.1)];
      }
    }
    assert ps[..|ps|] == ps;
  }

  /** Splitting on the first colon: the key is everything before it,
      stripped, and the value is everything after it, stripped, later colons
      included. */
  lemma HeaderEntryOfJoined(key: string, value: string)
    requires ':' !in key
    ensures HeaderEntry(key + ":" + value) == Some((Strip(key), Strip(value)))
  {
    SplitOnceJoin(key, ':', value);
  }

  /** A header name is present exactly when some string declares it. */
  lemma HeadersKeys(ps: seq<string>, k: string)
    ensures k in Headers(ps) <==> exists i :: 0 <= i < |ps| && Declares(ps[i], k)
  {
    AssignKeys(HeaderEntry, ps, k);
  }

  /** The last string that declares a header decides its value. */
  lemma HeadersLastWins(ps: seq<string>, i: nat, k: string, v: string)
    requires i < |ps| && HeaderEntry(ps[i]) == Some((k, v))
    requires forall j :: i < j < |ps| ==> !Declares(ps[j], k)
    ensures k in Headers(ps) && Headers(ps)[k] == v
  {
    AssignLastWins(HeaderEntry, ps, i, k, v);
  }

  /** A string without a colon is skipped and the rest are still processed. */
  lemma HeadersSkipNoColon(before: seq<string>, p: string, after: seq<string>)
    requires ':' !in p
    ensures Headers(before + [p] + after) == Headers(before + after)
  {
    AssignSkipsNone(HeaderEntry, before, p, after);
  }

  // ---------------------------------------------------------------------------
  // build_headers

  /** The headers `build_headers` produces: `Content-Type: application/json`,
      then `Authorization` for a bearer token, then `X-Shared-Secret`, then the
      explicit extras, each layer overriding the earlier ones. */
  function LayeredHeaders(bearer: Option<string>, secret: Option<string>, extra: map<string, string>): (h: map<string, string>)
    ensures h.Keys == {ContentType}
                      + (if Truthy(bearer) then {Authorization} else {})
                      + (if Truthy(secret) then {SharedSecret} else {})
                      + extra.Keys
    ensures forall k :: k in extra ==> h[k] == extra[k]
    ensures ContentType !in extra ==> h[ContentType] == ApplicationJson
    ensures Truthy(bearer) && Authorization !in extra ==> h[Authorization] == "Bearer " + bearer.value
    ensures Truthy(secret) && SharedSecret !in extra ==> h[SharedSecret] == secret.value
  {
    var base := map[ContentType := ApplicationJson];
    var withBearer := if Truthy(bearer) then base[Authorization := "Bearer " + bearer.value] else base;
    var withSecret := if Truthy(secret) then withBearer[SharedSecret := secret.value] else withBearer;
    withSecret + extra
  }

  /** `build_headers`, as successive assignments to one dictionary. */
  method BuildHeaders(bearer: Option<string>, secret: Option<string>, extra: map<string, string>)
    returns (headers: map<string, string>)
    ensures headers == LayeredHeaders(bearer, secret, extra)
  {
    headers := map[ContentType := ApplicationJson];
    if Truthy(bearer) {
      headers := headers[Authorization := "Bearer " + bearer.value];
    }
    if Truthy(secret) {
      headers := headers[SharedSecret := secret.value];
    }
    headers := headers + extra;
  }

  /** A single well-formed `Key:Value` string gives a one-entry map. */
  lemma HeadersOfOne(key: string, value: string)
    requires ':' !in key && Trimmed(key)
    ensures Headers([key + ":" + value]) == map[key := Strip(value)]
  {
    var p := key + ":" + value;
    assert [] + key + [] == key;
    StripPadded([], key, []);
    HeaderEntryOfJoined(key, value);
    assert HeaderEntry(p) == Some((key, Strip(value)));
    AssignOne(HeaderEntry, p);
  }

  /** An explicit `Key:Value` header has the final say over its key, above
      the base, bearer and secret layers. */
  lemma ExplicitHeaderWins(bearer: Option<string>, secret: Option<string>, key: string, value: string)
    requires ':' !in key && Trimmed(key)
    ensures key in LayeredHeaders(bearer, secret, Headers([key + ":" + value]))
    ensures LayeredHeaders(bearer, secret, Headers([key + ":" + value]))[key] == Strip(value)
  {
    HeadersOfOne(key, value);
  }

  /** In particular `Authorization:<value>` replaces the bearer token. */
  lemma ExplicitAuthorizationWins(bearer: Option<string>, secret: Option<string>, value: string)
    ensures Authorization in LayeredHeaders(bearer, secret, Headers([Authorization + ":" + value]))
    ensures LayeredHeaders(bearer, secret, Headers([Authorization + ":" + value]))[Authorization] == Strip(value)
  {
    ExplicitHeaderWins(bearer, secret, Authorization, value);
  }

  // ---------------------------------------------------------------------------
  // load_payload

  datatype PayloadError = Unreadable | MalformedJson

  /** `load_payload`: a non-empty file path wins, then non-empty inline text,
      and with neither the payload is `{}`. `readJsonFile` stands for opening
      and decoding the file, `parseJson` for decoding a string; their
      failures are passed on unchanged. */
  function LoadPayload(
    path: Option<string>, inline: Option<string>,
    readJsonFile: string -> Result<Json, PayloadError>,
    parseJson: string -> Result<Json, PayloadError>
  ): (r: Result<Json, PayloadError>)
    ensures Truthy(path) ==> r == readJsonFile(path.value)
    ensures !Truthy(path) && Truthy(inline) ==> r == parseJson(inline.value)
    ensures !Truthy(path) && !Truthy(inline) ==> r == Success(EmptyObject)
  {
    if Truthy(path) then readJsonFile(path.value)
    else if Truthy(inline) then parseJson(inline.value)
    else Success(EmptyObject)
  }

  // ---------------------------------------------------------------------------
  // main: resolution of arguments against the environment

  /** Python's `a or b` on optional strings. */
  function Or(a: Option<string>, b: Option<string>): (r: Option<string>)
    ensures Truthy(r) <==> Truthy(a) || Truthy(b)
    ensures Truthy(a) ==> r == a
    ensures !Truthy(a) ==> r == b
  {
    if Truthy(a) then a else b
  }

  /** `os.getenv(name)`. */
  function GetEnv(env: map<string, string>, name: string): Option<string>
  {
    if name in env then Some(env[name]) else None
  }

  /** The parsed command line. */
  datatype Args = Args(
    url: Option<string>,
    payload: Option<string>,
    data: Option<string>,
    httpMethod: string,
    bearer: Option<string>,
    secret: Option<string>,
    header: Option<seq<string>>,
    timeout: int,
    dryRun: bool)

  datatype Fatal =
    | InvalidChoice(httpMethod: string)
    | SystemExit(message: string)
    | PayloadFailure(cause: PayloadError)

  /** The URL: the argument if non-empty, else `FLOW_URL`; if that is empty
      or unset the run stops. */
  function ResolveUrl(args: Args, env: map<string, string>): (r: Result<string, Fatal>)
    ensures r.Success? <==> Truthy(args.url) || Truthy(GetEnv(env, FlowUrl))
    ensures r.Success? ==> r.value != ""
    ensures Truthy(args.url) ==> r == Success(args.url.value)
    ensures !Truthy(args.url) && Truthy(GetEnv(env, FlowUrl)) ==> r == Success(env[FlowUrl])
    ensures r.Failure? ==> r.error == SystemExit(MissingUrlMessage)
  {
    var url := Or(args.url, GetEnv(env, FlowUrl));
    if !Truthy(url) then Failure(SystemExit(MissingUrlMessage)) else Success(url.value)
  }

  /** The bearer token: the argument if non-empty, else `FLOW_BEARER`. */
  function ResolveBearer(args: Args, env: map<string, string>): (r: Option<string>)
    ensures Truthy(args.bearer) ==> r == args.bearer
    ensures !Truthy(args.bearer) ==> r == GetEnv(env, FlowBearer)
    ensures Truthy(r) <==> Truthy(args.bearer) || (FlowBearer in env && env[FlowBearer] != "")
  {
    Or(args.bearer, GetEnv(env, FlowBearer))
  }

  /** The shared secret: the argument if non-empty, else `FLOW_SECRET`. */
  function ResolveSecret(args: Args, env: map<string, string>): (r: Option<string>)
    ensures Truthy(args.secret) ==> r == args.secret
    ensures !Truthy(args.secret) ==> r == GetEnv(env, FlowSecret)
    ensures Truthy(r) <==> Truthy(args.secret) || (FlowSecret in env && env[FlowSecret] != "")
  {
    Or(args.secret, GetEnv(env, FlowSecret))
  }

  /** The fully resolved request that a dry run prints. */
  datatype Request = Request(httpMethod: string, url: string, headers: map<string, string>, payload: Json)

  /** Lines 102-111 of `main`: URL first, then credentials, headers and payload. */
  function Resolve(
    args: Args, env: map<string, string>,
    readJsonFile: string -> Result<Json, PayloadError>,
    parseJson: string -> Result<Json, PayloadError>
  ): (r: Result<Request, Fatal>)
    ensures ResolveUrl(args, env).Failure? ==> r == Failure(SystemExit(MissingUrlMessage))
    ensures ResolveUrl(args, env).Success? ==>
              match LoadPayload(args.payload, args.data, readJsonFile, parseJson)
              case Failure(e) => r == Failure(PayloadFailure(e))
              case Success(p) => r.Success? && r.value.payload == p
    ensures r.Success? ==>
              && r.value.httpMethod == args.httpMethod
              && r.value.url == ResolveUrl(args, env).value
              && r.value.headers == LayeredHeaders(ResolveBearer(args, env), ResolveSecret(args, env),
                                                   Headers(HeaderArgs(args.header)))
  {
    match ResolveUrl(args, env)
    case Failure(e) => Failure(e)
    case Success(url) =>
      var extra := Headers(HeaderArgs(args.header));
      match LoadPayload(args.payload, args.data, readJsonFile, parseJson)
      case Failure(e) => Failure(PayloadFailure(e))
      case Success(payload) =>
        var headers := LayeredHeaders(ResolveBearer(args, env), ResolveSecret(args, env), extra);
        Success(Request(args.httpMethod, url, headers, payload))
  }

  // ---------------------------------------------------------------------------
  // request_with_method: where the payload goes

  datatype Placement = QueryParams(payload: Json) | JsonBody(payload: Json)

  /** The one network call the utility makes, as data. */
  datatype Call = Call(verb: string, url: string, placement: Placement, headers: map<string, string>, timeout: int)

  /** `request_with_method` up to the network call: the method is upper-cased;
      `GET` sends the payload as query parameters, every other method as a
      JSON body. */
  function RequestWithMethod(httpMethod: string, url: string, payload: Json, headers: map<string, string>, timeout: int): (c: Call)
    ensures c.verb == Upper(httpMethod)
    ensures c.placement.QueryParams? <==> Upper(httpMethod) == "GET"
    ensures c.placement.payload == payload
    ensures c.url == url && c.headers == headers && c.timeout == timeout
  {
    var m := Upper(httpMethod);
    if m == "GET" then Call(m, url, QueryParams(payload), headers, timeout)
    else Call(m, url, JsonBody(payload), headers, timeout)
  }

  /** The method is matched case-insensitively: any spelling of "get" puts the
      payload in the query string. */
  lemma QueryParamsIffGet(httpMethod: string, url: string, payload: Json, headers: map<string, string>, timeout: int)
    ensures RequestWithMethod(httpMethod, url, payload, headers, timeout).placement.QueryParams?
            <==> |httpMethod| == 3 && httpMethod[0] in "gG" && httpMethod[1] in "eE" && httpMethod[2] in "tT"
  {
  }

  /** Upper-casing leaves every accepted `--method` value as it is. */
  lemma UpperOfChoice(httpMethod: string)
    requires httpMethod in MethodChoices
    ensures Upper(httpMethod) == httpMethod
  {
  }

  /** GET and POST of the same request differ in the verb and in where the
      payload goes, and in nothing else. */
  lemma GetAndPostDifferOnlyInPlacement(url: string, payload: Json, headers: map<string, string>, timeout: int)
    ensures var get := RequestWithMethod("GET", url, payload, headers, timeout);
            var post := RequestWithMethod("POST", url, payload, headers, timeout);
            && get.placement == QueryParams(payload)
            && post.placement == JsonBody(payload)
            && get.(verb := "POST", placement := JsonBody(payload)) == post
  {
  }

  // ---------------------------------------------------------------------------
  // main as a whole

  /** What a run ends in when it does not fail: the printed summary of a dry
      run, or the single request. */
  datatype Effect = PrintSummary(request: Request) | Send(call: Call)

  /** One run of `main`. The `--method` choices are checked when the command
      line is parsed, before anything else; then the request is resolved;
      then a dry run prints it and any other run sends it. */
  function Run(
    args: Args, env: map<string, string>,
    readJsonFile: string -> Result<Json, PayloadError>,
    parseJson: string -> Result<Json, PayloadError>
  ): (r: Result<Effect, Fatal>)
    ensures args.httpMethod !in MethodChoices ==> r == Failure(InvalidChoice(args.httpMethod))
    ensures args.httpMethod in MethodChoices && !Truthy(args.url) && !Truthy(GetEnv(env, FlowUrl))
            ==> r == Failure(SystemExit(MissingUrlMessage))
    ensures r.Success? ==> (r.value.PrintSummary? <==> args.dryRun)
    ensures r.Success? && r.value.Send? ==> r.value.call.url != "" && r.value.call.timeout == args.timeout
    ensures args.httpMethod in MethodChoices ==>
              var res := Resolve(args, env, readJsonFile, parseJson);
              && (res.Failure? ==> r == Failure(res.error))
              && (res.Success? && args.dryRun ==> r == Success(PrintSummary(res.value)))
              && (res.Success? && !args.dryRun ==>
                    r == Success(Send(RequestWithMethod(args.httpMethod, res.value.url, res.value.payload,
                                                        res.value.headers, args.timeout))))
  {
    if args.httpMethod !in MethodChoices then Failure(InvalidChoice(args.httpMethod))
    else match Resolve(args, env, readJsonFile, parseJson)
      case Failure(e) => Failure(e)
      case Success(req) =>
        if args.dryRun then Success(PrintSummary(req))
        else Success(Send(RequestWithMethod(req.httpMethod, req.url, req.payload, req.headers, args.timeout)))
  }

  /** A dry run prints exactly what the same command without `--dry-run`
      would send, and fails exactly when it would fail. */
  lemma DryRunShowsWhatWouldBeSent(
    args: Args, env: map<string, string>,
    readJsonFile: string -> Result<Json, PayloadError>,
    parseJson: string -> Result<Json, PayloadError>)
    ensures var preview := Run(args.(dryRun := true), env, readJsonFile, parseJson);
            var live := Run(args.(dryRun := false), env, readJsonFile, parseJson);
            && (preview.Failure? <==> live.Failure?)
            && (preview.Failure? ==> preview.error == live.error)
            && (preview.Success? ==>
                  var q := preview.value.request;
                  && live.value == Send(RequestWithMethod(q.httpMethod, q.url, q.payload, q.headers, args.timeout))
                  && live.value.call.verb == q.httpMethod)
  {
    if args.httpMethod in MethodChoices {
      UpperOfChoice(args.httpMethod);
    }
  }

  /** A payload that cannot be read or decoded stops the run: nothing is
      printed and nothing is sent, in a dry run or not. */
  lemma PayloadFailureStopsRun(
    args: Args, env: map<string, string>,
    readJsonFile: string -> Result<Json, PayloadError>,
    parseJson: string -> Result<Json, PayloadError>)
    requires args.httpMethod in MethodChoices && ResolveUrl(args, env).Success?
    requires LoadPayload(args.payload, args.data, readJsonFile, parseJson).Failure?
    ensures Run(args, env, readJsonFile, parseJson)
            == Failure(PayloadFailure(LoadPayload(args.payload, args.data, readJsonFile, parseJson).error))
  {
  }

  /** With a payload file given, the inline data makes no difference. */
  lemma PayloadFileBeatsInline(
    args: Args, data: Option<string>, env: map<string, string>,
    readJsonFile: string -> Result<Json, PayloadError>,
    parseJson: string -> Result<Json, PayloadError>)
    requires Truthy(args.payload)
    ensures Run(args, env, readJsonFile, parseJson) == Run(args.(data := data), env, readJsonFile, parseJson)
  {
  }
}
