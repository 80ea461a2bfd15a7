/** `GatewayApi`: the requests it builds for the three gateway routes and how
    it turns each HTTP outcome into a task, a status, result bytes or one of
    its wrapped errors. The HTTP session is the `send` parameter: whatever
    `requests` would answer for a request, or the exception it would raise. */
module GatewayApi {
  import opened Wrappers
  import opened Text
  import opened GatewayTask
  import UrlEncoding
  import Seqs

  /** `GATEWAY_TASK_TIMEOUT_SEC`, ten minutes. */
  const GATEWAY_TASK_TIMEOUT_SEC: nat := 10 * 60

  /** `GatewayRoutes`. */
  datatype Route = AddTask | GetStatus | GetResult

  function RoutePath(r: Route): string {
    match r
    case AddTask => "/add_task"
    case GetStatus => "/get_status"
    case GetResult => "/get_result"
  }

  /** `_construct_url`: host, route path, `?`, then the encoded keyword arguments. */
  function ConstructUrl(host: string, route: Route, query: seq<(string, string)>): string {
    host + RoutePath(route) + "?" + UrlEncoding.Urlencode(query)
  }

  /** The add-task URL carries no query: it ends in `/add_task?`. */
  lemma AddTaskUrl(host: string)
    ensures ConstructUrl(host, AddTask, []) == host + "/add_task?"
  {
  }

  /** The status and result URLs carry the task id under the single key `id`:
      after the route's `?` comes `id=`, and the rest decodes to the UTF-8
      bytes of the id. */
  lemma IdQueryUrl(host: string, route: Route, taskId: string)
    ensures var url := ConstructUrl(host, route, [("id", taskId)]);
      var prefix := host + RoutePath(route) + "?id=";
      && StartsWith(url, prefix)
      && UrlEncoding.NoSeparator(url[|prefix|..])
      && UrlEncoding.UnquotePlus(url[|prefix|..]) == Some(Encode(taskId))
  {
    var v := UrlEncoding.QuotePlus(taskId);
    UrlEncoding.PlainKeyQuery("id", taskId);
    var url := ConstructUrl(host, route, [("id", taskId)]);
    var prefix := host + RoutePath(route) + "?id=";
    var head := host + RoutePath(route);
    assert url == (head + "?") + ("id=" + v) by {
      assert "id" + "=" == "id=";
    }
    Seqs.AppendAssoc(head + "?", "id=", v);
    Seqs.AppendAssoc(head, "?", "id=");
    assert "?" + "id=" == "?id=";
    assert url == prefix + v;
    assert url[..|prefix|] == prefix;
    assert url[|prefix|..] == v;
    UrlEncoding.QuotedHasNoSeparator(taskId);
    UrlEncoding.UnquoteQuote(Encode(taskId));
  }

  // ---------------------------------------------------------------------------
  // HTTP

  /** Header names in lower case: `requests` looks headers up case-insensitively. */
  type Headers = map<string, string>

  datatype Payload =
    | NoPayload
    | JsonPayload(json: Json)
    | FilePayload(field: string, fileName: string, content: seq<byte>, mimeType: string)

  datatype Verb = Get | Post

  datatype Request = Request(verb: Verb, url: string, headers: Headers, payload: Payload)

  /** A response; `json` is its text decoded as JSON, `None` when it is not JSON. */
  datatype Response = Response(statusCode: int, headers: Headers, content: seq<byte>, json: Option<Json>)

  /** `requests` raised before any response (connection, DNS, timeout). */
  datatype TransportError = TransportError

  /** What went wrong inside a gateway call, kept as the wrapped error's cause. */
  datatype Cause =
    | Transport
    | HttpStatus(code: int)
    | NotJson
    | Invalid(error: ValidationError)
    | NoAttachment
    | ImageNotSaved

  datatype GatewayError =
    | AddTaskError(cause: Cause)
    | GetStatusError(cause: Cause)
    | GetResultError(cause: Cause)
    | TempFileNotRemoved   // `os.remove` in the image task's `finally` raised

  /** `raise_for_status()` raises for 4xx and 5xx codes. */
  predicate IsHttpError(code: int) {
    400 <= code < 600
  }

  /** The `send` outcome after `raise_for_status()`. */
  function Checked(outcome: Result<Response, TransportError>): (r: Result<Response, Cause>)
    ensures r.Ok? <==> outcome.Ok? && !IsHttpError(outcome.value.statusCode)
    ensures r.Ok? ==> r.value == outcome.value
    ensures outcome.Ok? && IsHttpError(outcome.value.statusCode) ==> r == Err(HttpStatus(outcome.value.statusCode))
  {
    match outcome
    case Err(_) => Err(Transport)
    case Ok(resp) => if IsHttpError(resp.statusCode) then Err(HttpStatus(resp.statusCode)) else Ok(resp)
  }

  /** The gateway's address and the API key sent with every call. */
  datatype Gateway = Gateway(url: string, apiKey: string)

  /** Headers of the two add-task calls. */
  function AddTaskHeaders(g: Gateway): Headers {
    map["x-api-key" := g.apiKey, "x-client-origin" := "blender"]
  }

  /** How an add-task call turns the gateway's answer into a task or an
      `AddTaskError`: transport and HTTP failures keep their cause, and a task
      is returned exactly when the answer is a success whose JSON validates. */
  predicate AddTaskOutcome(outcome: Result<Response, TransportError>, r: Result<Task, GatewayError>) {
    && (r.Err? ==> r.error.AddTaskError?)
    && (outcome.Err? ==> r == Err(AddTaskError(Transport)))
    && (outcome.Ok? && IsHttpError(outcome.value.statusCode) ==> r == Err(AddTaskError(HttpStatus(outcome.value.statusCode))))
    && (outcome.Ok? && !IsHttpError(outcome.value.statusCode) && outcome.value.json.None? ==> r == Err(AddTaskError(NotJson)))
    && (outcome.Ok? && !IsHttpError(outcome.value.statusCode) && outcome.value.json.Some? ==>
          match ValidateTask(outcome.value.json.value)
          case Ok(t) => r == Ok(t)
          case Err(e) => r == Err(AddTaskError(Invalid(e))))
  }

  /** The shared tail of both add-task calls. */
  function TaskFrom(outcome: Result<Response, TransportError>): (r: Result<Task, GatewayError>)
    ensures AddTaskOutcome(outcome, r)
  {
    match Checked(outcome)
    case Err(c) => Err(AddTaskError(c))
    case Ok(resp) =>
      match resp.json
      case None => Err(AddTaskError(NotJson))
      case Some(j) =>
        match ValidateTask(j)
        case Ok(t) => Ok(t)
        case Err(e) => Err(AddTaskError(Invalid(e)))
  }

  function AddTextTaskRequest(g: Gateway, prompt: string): (req: Request)
    ensures req.verb == Post && req.url == g.url + "/add_task?"
    ensures "x-api-key" in req.headers && req.headers["x-api-key"] == g.apiKey
    ensures "x-client-origin" in req.headers && req.headers["x-client-origin"] == "blender"
    ensures req.payload == JsonPayload(JObject(map["prompt" := JString(prompt)]))
  {
    AddTaskUrl(g.url);
    Request(Post, ConstructUrl(g.url, AddTask, []), AddTaskHeaders(g),
      JsonPayload(JObject(map["prompt" := JString(prompt)])))
  }

  /** `add_text_task`: post the prompt as JSON; every failure becomes an `AddTaskError`. */
  function AddTextTask(g: Gateway, prompt: string, send: Request -> Result<Response, TransportError>): (r: Result<Task, GatewayError>)
    ensures AddTaskOutcome(send(AddTextTaskRequest(g, prompt)), r)
  {
    TaskFrom(send(AddTextTaskRequest(g, prompt)))
  }

  /** A gateway that accepts the prompt and answers with the minimal task JSON
      yields a new task for that prompt. */
  lemma AddTextTaskAccepted(g: Gateway, prompt: string, id: string, send: Request -> Result<Response, TransportError>, resp: Response)
    requires send(AddTextTaskRequest(g, prompt)) == Ok(resp)
    requires resp.statusCode == 200
    requires resp.json == Some(JObject(map["id" := JString(id), "prompt" := JString(prompt)]))
    ensures AddTextTask(g, prompt, send) == Ok(NewTask(id, prompt))
  {
    ValidateMinimalTask(id, prompt);
  }

  /** The last path component, as `os.path.basename` finds it on POSIX. */
  function Basename(path: string): (r: string)
    ensures forall i | 0 <= i < |r| :: r[i] != '/'
    ensures |r| <= |path| && r == path[|path| - |r|..]
    ensures |r| < |path| ==> path[|path| - |r| - 1] == '/'
  {
    if path == [] then []
    else if path[|path| - 1] == '/' then []
    else Basename(path[..|path| - 1]) + [path[|path| - 1]]
  }

  function AddImageTaskRequest(g: Gateway, tempPath: string, png: seq<byte>): (req: Request)
    ensures req.verb == Post && req.url == g.url + "/add_task?"
    ensures req.headers == AddTaskHeaders(g)
    ensures req.payload.FilePayload? && req.payload.field == "image" && req.payload.mimeType == "image/png"
    ensures req.payload.content == png && req.payload.fileName == Basename(tempPath)
  {
    AddTaskUrl(g.url);
    Request(Post, ConstructUrl(g.url, AddTask, []), AddTaskHeaders(g),
      FilePayload("image", Basename(tempPath), png, "image/png"))
  }

  /** `add_image_task`. The temporary `.png` at `tempPath` already exists;
      `rendered` is what `save_render` leaves in it (`None` when it raises), and
      `removed` says whether the `finally` clause's `os.remove` succeeds. A failed
      removal replaces whatever the call would have returned or raised, and it
      escapes unwrapped. */
  function AddImageTask(g: Gateway, tempPath: string, rendered: Option<seq<byte>>, removed: bool,
                        send: Request -> Result<Response, TransportError>): (r: Result<Task, GatewayError>)
    ensures !removed <==> r == Err(TempFileNotRemoved)
    ensures removed && rendered.None? ==> r == Err(AddTaskError(ImageNotSaved))
    ensures removed && rendered.Some? ==> AddTaskOutcome(send(AddImageTaskRequest(g, tempPath, rendered.value)), r)
  {
    if !removed then Err(TempFileNotRemoved)
    else match rendered
      case None => Err(AddTaskError(ImageNotSaved))
      case Some(png) => TaskFrom(send(AddImageTaskRequest(g, tempPath, png)))
  }

  /** The headers of the status and result calls: the API key only. */
  function KeyHeaders(g: Gateway): Headers {
    map["x-api-key" := g.apiKey]
  }

  function GetStatusRequest(g: Gateway, taskId: string): (req: Request)
    ensures req.verb == Get && req.headers == KeyHeaders(g) && req.payload == NoPayload
    ensures req.url == ConstructUrl(g.url, GetStatus, [("id", taskId)])
  {
    Request(Get, ConstructUrl(g.url, GetStatus, [("id", taskId)]), KeyHeaders(g), NoPayload)
  }

  /** `get_status`: a status response exactly when the answer is a success
      whose JSON validates; every failure becomes a `GetStatusError`. */
  function GetStatusCall(g: Gateway, taskId: string, send: Request -> Result<Response, TransportError>): (r: Result<StatusResponse, GatewayError>)
    ensures r.Err? ==> r.error.GetStatusError?
    ensures var outcome := send(GetStatusRequest(g, taskId));
      r.Ok? <==> Checked(outcome).Ok? && outcome.value.json.Some? && ValidateStatusResponse(outcome.value.json.value).Ok?
    ensures r.Ok? ==> Ok(r.value) == ValidateStatusResponse(send(GetStatusRequest(g, taskId)).value.json.value)
    ensures send(GetStatusRequest(g, taskId)).Err? ==> r == Err(GetStatusError(Transport))
  {
    match Checked(send(GetStatusRequest(g, taskId)))
    case Err(c) => Err(GetStatusError(c))
    case Ok(resp) =>
      match resp.json
      case None => Err(GetStatusError(NotJson))
      case Some(j) =>
        match ValidateStatusResponse(j)
        case Ok(status) => Ok(status)
        case Err(e) => Err(GetStatusError(Invalid(e)))
  }

  /** A gateway answering 200 with the JSON form of a status response hands
      that status response back unchanged. */
  lemma GetStatusReadsAnswer(g: Gateway, taskId: string, send: Request -> Result<Response, TransportError>,
                             resp: Response, status: StatusResponse)
    requires send(GetStatusRequest(g, taskId)) == Ok(resp)
    requires resp.statusCode == 200 && resp.json == Some(StatusResponseJson(status))
    ensures GetStatusCall(g, taskId, send) == Ok(status)
  {
    StatusResponseRoundTrip(status);
  }

  /** The `content-disposition` header, `""` when missing. */
  function Disposition(h: Headers): string {
    if "content-disposition" in h then h["content-disposition"] else ""
  }

  function GetResultRequest(g: Gateway, taskId: string): (req: Request)
    ensures req.verb == Get && req.headers == KeyHeaders(g) && req.payload == NoPayload
    ensures req.url == ConstructUrl(g.url, GetResult, [("id", taskId)])
  {
    Request(Get, ConstructUrl(g.url, GetResult, [("id", taskId)]), KeyHeaders(g), NoPayload)
  }

  /** `get_result`: the response body, only from a success whose
      `content-disposition` starts with `attachment`; every failure, the missing
      attachment included, becomes a `GetResultError`. */
  function GetResultCall(g: Gateway, taskId: string, send: Request -> Result<Response, TransportError>): (r: Result<seq<byte>, GatewayError>)
    ensures r.Err? ==> r.error.GetResultError?
    ensures var outcome := send(GetResultRequest(g, taskId));
      r.Ok? <==> outcome.Ok? && !IsHttpError(outcome.value.statusCode) && StartsWith(Disposition(outcome.value.headers), "attachment")
    ensures r.Ok? ==> r.value == send(GetResultRequest(g, taskId)).value.content
    ensures var outcome := send(GetResultRequest(g, taskId));
      (outcome.Ok? && !IsHttpError(outcome.value.statusCode) && !StartsWith(Disposition(outcome.value.headers), "attachment"))
        ==> r == Err(GetResultError(NoAttachment))
  {
    match Checked(send(GetResultRequest(g, taskId)))
    case Err(c) => Err(GetResultError(c))
    case Ok(resp) =>
      if StartsWith(Disposition(resp.headers), "attachment") then Ok(resp.content)
      else Err(GetResultError(NoAttachment))
  }

  /** A success without a `content-disposition` header is not a result. */
  lemma MissingDispositionFails(g: Gateway, taskId: string, send: Request -> Result<Response, TransportError>, resp: Response)
    requires send(GetResultRequest(g, taskId)) == Ok(resp)
    requires !IsHttpError(resp.statusCode) && "content-disposition" !in resp.headers
    ensures GetResultCall(g, taskId, send) == Err(GetResultError(NoAttachment))
  {
  }

  /** `get_timeout`. */
  function GetTimeout(): (t: nat)
    ensures t == 600
  {
    GATEWAY_TASK_TIMEOUT_SEC
  }
}
