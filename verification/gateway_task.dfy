/** The gateway's task vocabulary: the status enum with its wire strings, the
    status response and the task record, and how pydantic validates them from
    decoded JSON. Turning response text into a JSON value is not modelled; a
    `Json` value is where validation starts. */
module GatewayTask {
  import opened Wrappers
  import opened Text

  /** `GatewayTaskStatus`. */
  datatype Status = NoResult | Failure | PartialResult | Success

  /** The enum member's value, as it appears on the wire. */
  function WireName(s: Status): string {
    match s
    case NoResult => "NoResult"
    case Failure => "Failure"
    case PartialResult => "PartialResult"
    case Success => "Success"
  }

  /** The status a wire string names, as enum validation finds it. */
  function ParseStatus(w: string): (r: Option<Status>)
    ensures r.Some? ==> WireName(r.value) == w
    ensures r.None? ==> forall s: Status :: WireName(s) != w
  {
    if w == "NoResult" then Some(NoResult)
    else if w == "Failure" then Some(Failure)
    else if w == "PartialResult" then Some(PartialResult)
    else if w == "Success" then Some(Success)
    else None
  }

  /** Parsing the wire string of a status gives the status back. */
  lemma ParseWireName(s: Status)
    ensures ParseStatus(WireName(s)) == Some(s)
  {
  }

  /** The four wire strings are distinct. */
  lemma WireNamesDistinct(s: Status, t: Status)
    ensures WireName(s) == WireName(t) <==> s == t
  {
  }

  /** A decoded JSON value. Numbers are kept as integers. */
  datatype Json =
    | JNull
    | JBool(b: bool)
    | JNumber(n: int)
    | JString(s: string)
    | JArray(items: seq<Json>)
    | JObject(fields: map<string, Json>)

  /** Why pydantic rejects a value. */
  datatype ValidationError =
    | NotAnObject
    | MissingField(name: string)
    | WrongType(name: string)
    | UnknownStatus(value: string)

  /** `GatewayTaskStatusResponse`. */
  datatype StatusResponse = StatusResponse(status: Status, reason: Option<string>)

  /** `GatewayTask`: `result` holds spz bytes once fetched. */
  datatype Task = Task(id: string, prompt: string, result: Option<seq<byte>>, taskStatus: Status)

  /** A required `str` field. */
  function RequiredString(fields: map<string, Json>, name: string): Result<string, ValidationError> {
    if name !in fields then Err(MissingField(name))
    else if !fields[name].JString? then Err(WrongType(name))
    else Ok(fields[name].s)
  }

  /** A field of type `GatewayTaskStatus`. */
  function StatusField(fields: map<string, Json>, name: string): Result<Status, ValidationError>
    requires name in fields
  {
    match fields[name]
    case JString(w) => if ParseStatus(w).Some? then Ok(ParseStatus(w).value) else Err(UnknownStatus(w))
    case _ => Err(WrongType(name))
  }

  /** `GatewayTaskStatusResponse.model_validate_json` after decoding: `status`
      is required and must be one of the four wire strings; `reason` may be
      absent or null, which both mean `None`. Unknown keys are ignored. */
  function ValidateStatusResponse(j: Json): (r: Result<StatusResponse, ValidationError>)
    ensures r.Ok? ==> j.JObject? && "status" in j.fields && j.fields["status"] == JString(WireName(r.value.status))
    ensures r.Ok? && "reason" !in j.fields ==> r.value.reason == None
    ensures r.Ok? && r.value.reason.Some? ==> j.fields["reason"] == JString(r.value.reason.value)
    ensures (j.JObject? && "status" in j.fields && j.fields["status"].JString?
             && ParseStatus(j.fields["status"].s).None?) ==> r == Err(UnknownStatus(j.fields["status"].s))
  {
    if !j.JObject? then Err(NotAnObject)
    else if "status" !in j.fields then Err(MissingField("status"))
    else
      var status :- StatusField(j.fields, "status");
      if "reason" !in j.fields then Ok(StatusResponse(status, None))
      else match j.fields["reason"]
        case JNull => Ok(StatusResponse(status, None))
        case JString(reason) => Ok(StatusResponse(status, Some(reason)))
        case _ => Err(WrongType("reason"))
  }

  /** The JSON the gateway sends for a status response. */
  function StatusResponseJson(resp: StatusResponse): Json {
    var reason := match resp.reason case None => JNull case Some(text) => JString(text);
    JObject(map["status" := JString(WireName(resp.status)), "reason" := reason])
  }

  /** Every status response survives the trip through its JSON form. */
  lemma StatusResponseRoundTrip(resp: StatusResponse)
    ensures ValidateStatusResponse(StatusResponseJson(resp)) == Ok(resp)
  {
  }

  /** The docstring's "if status is not SUCCESS, reason is not None" is not
      checked: a failure without a reason validates. */
  lemma ReasonInvariantNotEnforced()
    ensures ValidateStatusResponse(JObject(map["status" := JString("Failure")]))
            == Ok(StatusResponse(Failure, None))
  {
  }

  /** A new task: no result and status `NO_RESULT` until told otherwise. */
  function NewTask(id: string, prompt: string): (t: Task)
    ensures t.id == id && t.prompt == prompt
    ensures t.result == None && t.taskStatus == NoResult
  {
    Task(id, prompt, None, NoResult)
  }

  /** `GatewayTask.model_validate_json` after decoding: `id` and `prompt` are
      required strings, `result` defaults to `None` (a JSON string becomes its
      UTF-8 bytes) and `task_status` defaults to `NO_RESULT`. */
  function ValidateTask(j: Json): (r: Result<Task, ValidationError>)
    ensures r.Ok? ==> j.JObject? && "id" in j.fields && "prompt" in j.fields
    ensures r.Ok? ==> j.fields["id"] == JString(r.value.id) && j.fields["prompt"] == JString(r.value.prompt)
    ensures r.Ok? && "result" !in j.fields ==> r.value.result == None
    ensures r.Ok? && "task_status" !in j.fields ==> r.value.taskStatus == NoResult
    ensures r.Ok? && "task_status" in j.fields ==> j.fields["task_status"] == JString(WireName(r.value.taskStatus))
    ensures j.JObject? && "id" !in j.fields ==> r == Err(MissingField("id"))
  {
    if !j.JObject? then Err(NotAnObject)
    else
      var id :- RequiredString(j.fields, "id");
      var prompt :- RequiredString(j.fields, "prompt");
      var result :-
        if "result" !in j.fields then Ok(None)
        else match j.fields["result"]
          case JNull => Ok(None)
          case JString(text) => Ok(Some(Encode(text)))
          case _ => Err(WrongType("result"));
      var status :- if "task_status" !in j.fields then Ok(NoResult) else StatusField(j.fields, "task_status");
      Ok(Task(id, prompt, result, status))
  }

  /** The gateway's minimal add-task answer, `{"id": ..., "prompt": ...}`,
      validates to a new task. */
  lemma ValidateMinimalTask(id: string, prompt: string)
    ensures ValidateTask(JObject(map["id" := JString(id), "prompt" := JString(prompt)])) == Ok(NewTask(id, prompt))
  {
  }
}
