/** The client's HTTP helper (client/src/services/http.ts): how the request URL is built,
    what the request carries, and how a response becomes a value or an `ApiError`.
    `fetch`, `JSON.stringify`, URL parsing and serialisation, and reading the response
    stream are not part of this model: the body `fetch` would send is produced by a
    caller-supplied `stringify`, and a response arrives with its body already read. */
module Http {
  import opened Wrappers
  import opened Text

  // ---------------------------------------------------------------------------
  // The URL

  /** `s.replace(/\/+$/, '')`. */
  function TrimTrailingSlashes(s: string): (r: string)
    ensures |r| <= |s| && r == s[..|r|]
    ensures forall i :: |r| <= i < |s| ==> s[i] == '/'
    ensures r == [] || r[|r| - 1] != '/'
  {
    if s != [] && s[|s| - 1] == '/' then TrimTrailingSlashes(s[..|s| - 1]) else s
  }

  /** `s.replace(/^\/+/, '')`. */
  function TrimLeadingSlashes(s: string): (r: string)
    ensures |r| <= |s| && r == s[|s| - |r|..]
    ensures forall i :: 0 <= i < |s| - |r| ==> s[i] == '/'
    ensures r == [] || r[0] != '/'
  {
    if s != [] && s[0] == '/' then TrimLeadingSlashes(s[1..]) else s
  }

  /** `${base}/${p}` with the base's trailing and the path's leading slashes removed. */
  function JoinUrl(base: string, path: string): string {
    TrimTrailingSlashes(base) + "/" + TrimLeadingSlashes(path)
  }

  /** Exactly one '/' separates what is left of the base from what is left of the path. */
  lemma OneSlashAtJoin(base: string, path: string)
    ensures var b, p, u := TrimTrailingSlashes(base), TrimLeadingSlashes(path), JoinUrl(base, path);
            && u[|b|] == '/'
            && (|b| > 0 ==> u[|b| - 1] != '/')
            && (|p| > 0 ==> u[|b| + 1] != '/')
            && u[..|b|] == base[..|b|]
            && u[|b| + 1..] == path[|path| - |p|..]
  {
  }

  /** Extra slashes at the end of the base or the start of the path change nothing. */
  lemma ExtraSlashesIgnored(base: string, path: string)
    ensures JoinUrl(base + "/", "/" + path) == JoinUrl(base, path)
  {
    assert (base + "/")[..|base + "/"| - 1] == base;
    assert ("/" + path)[1..] == path;
  }

  /** A query value: `string | number | boolean | null | undefined`, numbers whole. */
  datatype QueryValue = QStr(s: string) | QNum(n: int) | QBool(b: bool) | QNull | QUndefined

  predicate IsSet(v: QueryValue) {
    !(v.QNull? || v.QUndefined?)
  }

  /** `String(value)`. */
  function Stringify(v: QueryValue): string
    requires IsSet(v)
  {
    match v
    case QStr(s) => s
    case QNum(n) => IntToString(n)
    case QBool(b) => if b then "true" else "false"
  }

  type Param = (string, string)

  /** `searchParams.get(name)`: the value of the first pair with that name. */
  function Get(ps: seq<Param>, name: string): Option<string> {
    if ps == [] then None else if ps[0].0 == name then Some(ps[0].1) else Get(ps[1..], name)
  }

  function RemoveAll(ps: seq<Param>, name: string): (r: seq<Param>)
    ensures forall i :: 0 <= i < |r| ==> r[i].0 != name
    ensures forall m :: m != name ==> Get(r, m) == Get(ps, m)
  {
    if ps == [] then []
    else if ps[0].0 == name then RemoveAll(ps[1..], name)
    else [ps[0]] + RemoveAll(ps[1..], name)
  }

  /** `searchParams.set(name, value)`: the first pair with the name takes the value and
      the later ones are removed; without such a pair, one is appended. */
  function SetParam(ps: seq<Param>, name: string, value: string): seq<Param> {
    if ps == [] then [(name, value)]
    else if ps[0].0 == name then [(name, value)] + RemoveAll(ps[1..], name)
    else [ps[0]] + SetParam(ps[1..], name, value)
  }

  /** After a set, the name has exactly one pair, holding the value, and every other
      name reads as before. */
  lemma {:induction false} SetParamSpec(ps: seq<Param>, name: string, value: string)
    ensures var r := SetParam(ps, name, value);
            && Get(r, name) == Some(value)
            && (forall i, j :: 0 <= i < |r| && 0 <= j < |r| && r[i].0 == name && r[j].0 == name ==> i == j)
            && (forall m :: m != name ==> Get(r, m) == Get(ps, m))
  {
    if ps != [] && ps[0].0 != name {
      SetParamSpec(ps[1..], name, value);
      var r := SetParam(ps, name, value);
      forall i, j | 0 <= i < |r| && 0 <= j < |r| && r[i].0 == name && r[j].0 == name
        ensures i == j
      {
        assert i > 0 && j > 0;
        assert r[i] == SetParam(ps[1..], name, value)[i - 1];
        assert r[j] == SetParam(ps[1..], name, value)[j - 1];
      }
    }
  }

  /** One `forEach` step: a null or undefined value is skipped. */
  function Step(ps: seq<Param>, entry: (string, QueryValue)): seq<Param> {
    if IsSet(entry.1) then SetParam(ps, entry.0, Stringify(entry.1)) else ps
  }

  /** The parameters after the whole `forEach` over the query's entries. */
  function SetAll(ps: seq<Param>, entries: seq<(string, QueryValue)>): seq<Param> {
    if entries == [] then ps else Step(SetAll(ps, entries[..|entries| - 1]), entries[|entries| - 1])
  }

  /** The value the last entry with that name and a value of its own sets, if any. */
  function LastSet(entries: seq<(string, QueryValue)>, name: string): Option<string> {
    if entries == [] then None
    else
      var e := entries[|entries| - 1];
      if e.0 == name && IsSet(e.1) then Some(Stringify(e.1)) else LastSet(entries[..|entries| - 1], name)
  }

  /** Each name reads as the last entry that set it, or as before when none did. */
  lemma {:induction false} SetAllReads(ps: seq<Param>, entries: seq<(string, QueryValue)>, name: string)
    ensures Get(SetAll(ps, entries), name) == if LastSet(entries, name).Some? then LastSet(entries, name) else Get(ps, name)
  {
    if entries != [] {
      var init := entries[..|entries| - 1];
      var e := entries[|entries| - 1];
      SetAllReads(ps, init, name);
      if IsSet(e.1) {
        SetParamSpec(SetAll(ps, init), e.0, Stringify(e.1));
      }
    }
  }

  /** With distinct names, as an object's keys are, an entry whose value is null or
      undefined leaves its name as it was, and any other entry sets it to `String(value)`. */
  lemma QueryEntryEffect(ps: seq<Param>, entries: seq<(string, QueryValue)>, i: int)
    requires 0 <= i < |entries|
    requires forall j, k :: 0 <= j < k < |entries| ==> entries[j].0 != entries[k].0
    ensures IsSet(entries[i].1) ==> Get(SetAll(ps, entries), entries[i].0) == Some(Stringify(entries[i].1))
    ensures !IsSet(entries[i].1) ==> Get(SetAll(ps, entries), entries[i].0) == Get(ps, entries[i].0)
  {
    SetAllReads(ps, entries, entries[i].0);
    LastSetOfDistinct(entries, i);
  }

  lemma {:induction false} LastSetOfDistinct(entries: seq<(string, QueryValue)>, i: int)
    requires 0 <= i < |entries|
    requires forall j, k :: 0 <= j < k < |entries| ==> entries[j].0 != entries[k].0
    ensures LastSet(entries, entries[i].0) == if IsSet(entries[i].1) then Some(Stringify(entries[i].1)) else None
  {
    var n := |entries|;
    if i < n - 1 {
      var init := entries[..n - 1];
      assert init[i] == entries[i];
      LastSetOfDistinct(init, i);
    } else if !IsSet(entries[i].1) {
      NameAbsent(entries[..n - 1], entries[i].0);
    }
  }

  lemma {:induction false} NameAbsent(entries: seq<(string, QueryValue)>, name: string)
    requires forall j :: 0 <= j < |entries| ==> entries[j].0 != name
    ensures LastSet(entries, name).None?
  {
    if entries != [] {
      NameAbsent(entries[..|entries| - 1], name);
    }
  }

  /** A built URL: the address text and its search parameters. */
  datatype Url = Url(address: string, params: seq<Param>)

  /** `buildUrl(path, query)`; `existing` are the parameters the parsed address already
      carries. */
  method BuildUrl(apiBase: string, path: string, query: Option<seq<(string, QueryValue)>>, existing: seq<Param>)
    returns (url: Url)
    ensures url.address == JoinUrl(apiBase, path)
    ensures url.params == if query.Some? then SetAll(existing, query.value) else existing
  {
    var params := existing;
    if query.Some? {
      var entries := query.value;
      var i := 0;
      while i < |entries|
        invariant 0 <= i <= |entries|
        invariant params == SetAll(existing, entries[..i])
      {
        var (key, value) := entries[i];
        assert entries[..i + 1][..i] == entries[..i];
        if IsSet(value) {
          params := SetParam(params, key, Stringify(value));
        }
        i := i + 1;
      }
      assert entries[..i] == entries;
    }
    url := Url(TrimTrailingSlashes(apiBase) + "/" + TrimLeadingSlashes(path), params);
  }

  // ---------------------------------------------------------------------------
  // The request

  /** The JavaScript values a body or a response can be. */
  datatype JsValue = JUndefined | JNull | JBool(b: bool) | JNum(n: int) | JStr(s: string) | JObject(fields: map<string, JsValue>)

  predicate Truthy(v: JsValue) {
    match v
    case JUndefined => false
    case JNull => false
    case JBool(b) => b
    case JNum(n) => n != 0
    case JStr(s) => s != ""
    case JObject(_) => true
  }

  datatype HttpMethod = GET | POST | PUT | PATCH | DELETE

  datatype Credentials = Omit | SameOrigin | Include

  datatype RequestOptions = RequestOptions(
    headers: Option<map<string, string>>,
    query: Option<seq<(string, QueryValue)>>,
    body: JsValue,
    credentials: Option<Credentials>)

  datatype RequestInit = RequestInit(verb: HttpMethod, headers: map<string, string>, body: Option<string>, credentials: Credentials)

  const JSON_TYPE: string := "application/json"

  /** The `init` handed to `fetch`: an Accept header, a JSON Content-Type and a JSON body
      only for a truthy body, the caller's headers over both, and credentials defaulting to
      'include'. */
  function MakeInit(verb: HttpMethod, opts: RequestOptions, stringify: JsValue -> string): (init: RequestInit)
    ensures "Accept" in init.headers
    ensures "Content-Type" in init.headers <==>
              Truthy(opts.body) || (opts.headers.Some? && "Content-Type" in opts.headers.value)
    ensures opts.headers.Some? ==> forall h :: h in opts.headers.value ==> h in init.headers && init.headers[h] == opts.headers.value[h]
    ensures forall h :: h in init.headers && h != "Accept" && h != "Content-Type" ==> opts.headers.Some? && h in opts.headers.value
    ensures (opts.headers.None? || "Accept" !in opts.headers.value) ==> init.headers["Accept"] == JSON_TYPE
    ensures init.body.Some? <==> Truthy(opts.body)
    ensures init.credentials == if opts.credentials.Some? then opts.credentials.value else Include
  {
    var base := map["Accept" := JSON_TYPE];
    var typed := if Truthy(opts.body) then base["Content-Type" := JSON_TYPE] else base;
    var user := if opts.headers.Some? then opts.headers.value else map[];
    RequestInit(
      verb,
      typed + user,
      if Truthy(opts.body) then Some(stringify(opts.body)) else None,
      if opts.credentials.Some? then opts.credentials.value else Include)
  }

  // ---------------------------------------------------------------------------
  // The response

  /** A response with its body read: `json` is None when the body is not valid JSON, and
      `text` is None when reading the body failed. */
  datatype Response = Response(
    ok: bool, status: int, statusText: string, contentType: Option<string>, json: Option<JsValue>, text: Option<string>)

  datatype HttpError = ApiError(message: string, status: int, body: JsValue) | BodyError

  datatype Outcome = Value(v: JsValue) | Failure(error: HttpError)

  /** The Content-Type header contains `application/json`; a missing header is "". */
  predicate IsJson(res: Response) {
    Contains(if res.contentType.Some? then res.contentType.value else "", JSON_TYPE)
  }

  /** The body of a failed response, `undefined` when it could not be read. */
  function ErrorBody(res: Response): JsValue {
    if IsJson(res) then (if res.json.Some? then res.json.value else JUndefined)
    else (if res.text.Some? then JStr(res.text.value) else JUndefined)
  }

  /** A field that is a string with something besides whitespace. */
  predicate Usable(body: JsValue, field: string) {
    body.JObject? && field in body.fields && body.fields[field].JStr? && JsTrimNonEmpty(body.fields[field].s)
  }

  /** The error message: the body's `message`, else its `error`, else a text body, when
      not blank; otherwise the status text, or "Request failed" when that is empty. */
  function ErrorMessage(body: JsValue, statusText: string): (m: string)
    ensures m != ""
    ensures m == statusText || m == "Request failed" || body == JStr(m)
            || (body.JObject? && exists f :: f in body.fields && body.fields[f] == JStr(m))
  {
    if Usable(body, "message") then body.fields["message"].s
    else if Usable(body, "error") then body.fields["error"].s
    else if body.JStr? && JsTrimNonEmpty(body.s) then body.s
    else if statusText != "" then statusText
    else "Request failed"
  }

  /** A usable `message` wins over the `error` field and the status text. */
  lemma MessageFirst(fields: map<string, JsValue>, statusText: string)
    requires Usable(JObject(fields), "message")
    ensures ErrorMessage(JObject(fields), statusText) == fields["message"].s
  {
  }

  /** The status text is only used when the body offers nothing usable. */
  lemma StatusTextLast(body: JsValue, statusText: string)
    requires ErrorMessage(body, statusText) == statusText && statusText != ""
    requires body.JStr? ==> body.s != statusText
    requires body.JObject? ==> forall f :: f in body.fields ==> body.fields[f] != JStr(statusText)
    ensures !Usable(body, "message") && !Usable(body, "error")
    ensures body.JStr? ==> !JsTrimNonEmpty(body.s)
  {
  }

  /** `request`'s outcome once the response is in: a failed status throws an `ApiError`
      with the status and the body; 204 gives `undefined`; otherwise the body, as JSON when
      the Content-Type says so and as text otherwise. */
  function Settle(res: Response): (o: Outcome)
    ensures !res.ok ==> o.Failure? && o.error.ApiError? && o.error.status == res.status && o.error.message != ""
    ensures res.ok ==> o.Value? || o.error == BodyError
  {
    if !res.ok then
      var body := ErrorBody(res);
      Failure(ApiError(ErrorMessage(body, res.statusText), res.status, body))
    else if res.status == 204 then Value(JUndefined)
    else if IsJson(res) then (if res.json.Some? then Value(res.json.value) else Failure(BodyError))
    else if res.text.Some? then Value(JStr(res.text.value))
    else Failure(BodyError)
  }

  /** A 204 gives `undefined` whatever its body holds, even a body that does not parse. */
  lemma NoContentIgnoresBody(res: Response, json: Option<JsValue>, text: Option<string>)
    requires res.ok && res.status == 204
    ensures Settle(res) == Value(JUndefined) && Settle(res.(json := json, text := text)) == Value(JUndefined)
  {
  }

  /** A failed JSON response whose body has a usable message throws with that message. */
  lemma FailureUsesMessage(res: Response, fields: map<string, JsValue>)
    requires !res.ok && IsJson(res) && res.json == Some(JObject(fields)) && Usable(JObject(fields), "message")
    ensures Settle(res) == Failure(ApiError(fields["message"].s, res.status, JObject(fields)))
  {
  }
}
