/** The add-on's single-task client: `request_model` starts a task and
    `get_result` is one poll step of it. The gateway is seen through an
    abstract interface (what each call would answer), the clock is the `now`
    argument, and the SPZ decompressor is the process-wide loader of
    `SpzLoader` with its native call as a parameter. */
module Client {
  import opened Wrappers
  import opened Text
  import opened GatewayTask
  import GatewayApi
  import SpzLoader

  /** `_GATEWAY_STATUS_CHECK_INTERVAL_SEC`: how often the operator polls. */
  const GATEWAY_STATUS_CHECK_INTERVAL_SEC: nat := 5

  /** `_GATEWAY_TASK_TIMEOUT_SEC`, ten minutes. */
  const GATEWAY_TASK_TIMEOUT_SEC: nat := 10 * 60

  /** The gateway as the client calls it: what adding a task for a prompt,
      asking for a task's status and fetching its result would answer. */
  datatype RemoteGateway = RemoteGateway(
    addTask: string -> Result<Task, GatewayApi.GatewayError>,
    getStatus: Task -> Result<StatusResponse, GatewayApi.GatewayError>,
    getResult: Task -> Result<seq<byte>, GatewayApi.GatewayError>)

  /** The calls made on the gateway, in order. */
  datatype RemoteCall = AddTaskCall(prompt: string) | StatusCall(task: Task) | ResultCall(task: Task)

  /** `Client`: the current task and when it was started (seconds since the epoch). */
  datatype Client = Client(task: Option<Task>, taskStartTime: Option<real>)

  datatype ClientError =
    | Timeout                                     // `GatewayTimeoutError`
    | GatewayFailure                              // `GatewayFailureError`
    | Gateway(cause: GatewayApi.GatewayError)     // raised by a gateway call
    | Loader(loaderError: SpzLoader.LoaderError)  // raised by `get_spz`
    | Spz(failure: SpzLoader.SpzFailure)          // raised by `decompress`

  /** `task_id`. */
  function TaskId(c: Client): (r: Option<string>)
    ensures r.Some? <==> c.task.Some?
    ensures r.Some? ==> r.value == c.task.value.id
  {
    match c.task case None => None case Some(t) => Some(t.id)
  }

  /** `prompt`. */
  function Prompt(c: Client): (r: Option<string>)
    ensures r.Some? <==> c.task.Some?
    ensures r.Some? ==> r.value == c.task.value.prompt
  {
    match c.task case None => None case Some(t) => Some(t.prompt)
  }

  /** A new client has no task and no start time. */
  function NewClient(): (c: Client)
    ensures TaskId(c) == None && Prompt(c) == None
    ensures c.taskStartTime == None
  {
    Client(None, None)
  }

  /** The client after a call and the exception the call raised, if any. */
  datatype Step = Step(client: Client, calls: seq<RemoteCall>, raised: Option<ClientError>)

  /** `request_model(prompt)` at time `now`: on success the returned task and
      the time become the client's; a failing call raises and changes nothing. */
  function RequestModel(c: Client, gw: RemoteGateway, prompt: string, now: real): (r: Step)
    ensures r.calls == [AddTaskCall(prompt)]
    ensures r.raised.None? <==> gw.addTask(prompt).Ok?
    ensures r.raised.None? ==> r.client == Client(Some(gw.addTask(prompt).value), Some(now))
    ensures r.raised.None? ==> TaskId(r.client) == Some(gw.addTask(prompt).value.id)
    ensures r.raised.Some? ==> r.client == c && r.raised == Some(Gateway(gw.addTask(prompt).error))
  {
    match gw.addTask(prompt)
    case Ok(task) => Step(Client(Some(task), Some(now)), [AddTaskCall(prompt)], None)
    case Err(e) => Step(c, [AddTaskCall(prompt)], Some(Gateway(e)))
  }

  /** What `get_result` ends with: `None` without a task, `None` while the
      task is still running, the path of the written `.ply` file, or an
      exception. */
  datatype Outcome = Idle | Pending | Completed(path: string) | Raised(error: ClientError)

  /** One poll: its outcome, the gateway calls it made, the temporary file it
      left on disk (path and content), and the loader singleton afterwards. */
  datatype Poll = Poll(outcome: Outcome, calls: seq<RemoteCall>, file: Option<(string, seq<byte>)>, spz: SpzLoader.Singleton)

  /** The status a poll asks for is terminal: success or failure. */
  predicate IsTerminal(s: Status) {
    s == Success || s == Failure
  }

  /** The client has both a task and a start time. */
  predicate HasTask(c: Client) {
    c.task.Some? && c.taskStartTime.Some?
  }

  /** More than the timeout has passed since the task started. */
  predicate TimedOut(c: Client, now: real)
    requires HasTask(c)
  {
    now - c.taskStartTime.value > GATEWAY_TASK_TIMEOUT_SEC as real
  }

  /** The status call succeeded and reported `s`. */
  predicate Reported(c: Client, gw: RemoteGateway, s: Status)
    requires HasTask(c)
  {
    gw.getStatus(c.task.value).Ok? && gw.getStatus(c.task.value).value.status == s
  }

  /** The native library keeps its promise for whatever result this client
      would fetch. */
  predicate NativeDelivers(c: Client, gw: RemoteGateway, native: SpzLoader.NativeCall -> SpzLoader.NativeResult) {
    c.task.Some? && gw.getResult(c.task.value).Ok? ==>
      SpzLoader.Delivers(native(SpzLoader.NativeArguments(gw.getResult(c.task.value).value, false)))
  }

  /** The success branch after the result arrived: get the loader, create
      the temporary `.ply` file, decompress into it. A failing decompression
      leaves the empty file behind. */
  function SaveResult(spzData: seq<byte>, spz: SpzLoader.Singleton, host: SpzLoader.Host,
                      native: SpzLoader.NativeCall -> SpzLoader.NativeResult, tempPath: string)
    : (r: (Outcome, Option<(string, seq<byte>)>, SpzLoader.Singleton))
    requires SpzLoader.Delivers(native(SpzLoader.NativeArguments(spzData, false)))
    ensures r.0.Completed? <==> SpzLoader.GetSpz(spz, host).Ok? && SpzLoader.Decompress(SpzLoader.Bytes(spzData), false, native).Ok?
    ensures r.0.Completed? ==> r.0.path == tempPath && r.1 == Some((tempPath, SpzLoader.Decompress(SpzLoader.Bytes(spzData), false, native).value))
    ensures SpzLoader.GetSpz(spz, host).Err? ==> r.0 == Raised(Loader(SpzLoader.GetSpz(spz, host).error)) && r.1 == None
    ensures SpzLoader.GetSpz(spz, host).Ok? && SpzLoader.Decompress(SpzLoader.Bytes(spzData), false, native).Err?
      ==> r.0 == Raised(Spz(SpzLoader.Decompress(SpzLoader.Bytes(spzData), false, native).error)) && r.1 == Some((tempPath, []))
  {
    match SpzLoader.GetSpz(spz, host)
    case Err(e) => (Raised(Loader(e)), None, spz)
    case Ok(pair) =>
      match SpzLoader.Decompress(SpzLoader.Bytes(spzData), false, native)
      case Err(f) => (Raised(Spz(f)), Some((tempPath, [])), pair.0)
      case Ok(ply) => (Completed(tempPath), Some((tempPath, ply)), pair.0)
  }

  /** `get_result()` at time `now`. `tempStem` is the name `tempfile` picks,
      before the `.ply` suffix. */
  function GetResult(c: Client, gw: RemoteGateway, now: real, spz: SpzLoader.Singleton, host: SpzLoader.Host,
                     native: SpzLoader.NativeCall -> SpzLoader.NativeResult, tempStem: string): (r: Poll)
    requires NativeDelivers(c, gw, native)
    ensures !HasTask(c) ==> r == Poll(Idle, [], None, spz)
    ensures HasTask(c) && TimedOut(c, now) ==> r == Poll(Raised(Timeout), [], None, spz)
    ensures r.outcome == Raised(Timeout) ==> HasTask(c) && TimedOut(c, now)
    ensures HasTask(c) && !TimedOut(c, now) ==> |r.calls| >= 1 && r.calls[0] == StatusCall(c.task.value)
    ensures HasTask(c) && !TimedOut(c, now) && gw.getStatus(c.task.value).Err?
      ==> r == Poll(Raised(Gateway(gw.getStatus(c.task.value).error)), [StatusCall(c.task.value)], None, spz)
    ensures HasTask(c) && !TimedOut(c, now) && gw.getStatus(c.task.value).Ok?
              && !IsTerminal(gw.getStatus(c.task.value).value.status)
      ==> r == Poll(Pending, [StatusCall(c.task.value)], None, spz)
    ensures HasTask(c) && !TimedOut(c, now) && Reported(c, gw, Failure)
      ==> r == Poll(Raised(GatewayFailure), [StatusCall(c.task.value)], None, spz)
    ensures (exists i | 0 <= i < |r.calls| :: r.calls[i].ResultCall?)
      ==> HasTask(c) && !TimedOut(c, now) && Reported(c, gw, Success)
    ensures HasTask(c) && !TimedOut(c, now) && Reported(c, gw, Success)
      ==> r.calls == [StatusCall(c.task.value), ResultCall(c.task.value)]
    ensures HasTask(c) && !TimedOut(c, now) && Reported(c, gw, Success) && gw.getResult(c.task.value).Err?
      ==> r == Poll(Raised(Gateway(gw.getResult(c.task.value).error)),
                    [StatusCall(c.task.value), ResultCall(c.task.value)], None, spz)
    ensures HasTask(c) && !TimedOut(c, now) && Reported(c, gw, Success) && gw.getResult(c.task.value).Ok?
      ==> (r.outcome, r.file, r.spz) == SaveResult(gw.getResult(c.task.value).value, spz, host, native, tempStem + ".ply")
    ensures HasTask(c) && !TimedOut(c, now) && Reported(c, gw, Success) && gw.getResult(c.task.value).Ok?
              && SpzLoader.GetSpz(spz, host).Ok?
              && SpzLoader.Decompress(SpzLoader.Bytes(gw.getResult(c.task.value).value), false, native).Ok?
      ==> r.outcome == Completed(tempStem + ".ply")
    ensures r.outcome.Completed? ==> HasTask(c) && !TimedOut(c, now) && Reported(c, gw, Success)
    ensures r.outcome.Completed? ==> r.outcome.path == tempStem + ".ply"
    ensures r.outcome.Completed? ==>
      && gw.getResult(c.task.value).Ok?
      && SpzLoader.Decompress(SpzLoader.Bytes(gw.getResult(c.task.value).value), false, native).Ok?
    ensures r.outcome.Completed? ==> r.file == Some((r.outcome.path,
      SpzLoader.Decompress(SpzLoader.Bytes(gw.getResult(c.task.value).value), false, native).value))
  {
    if !HasTask(c) then Poll(Idle, [], None, spz)
    else if TimedOut(c, now) then Poll(Raised(Timeout), [], None, spz)
    else
      var task := c.task.value;
      match gw.getStatus(task)
      case Err(e) => Poll(Raised(Gateway(e)), [StatusCall(task)], None, spz)
      case Ok(response) =>
        if !IsTerminal(response.status) then Poll(Pending, [StatusCall(task)], None, spz)
        else if response.status == Failure then Poll(Raised(GatewayFailure), [StatusCall(task)], None, spz)
        else
          var calls := [StatusCall(task), ResultCall(task)];
          match gw.getResult(task)
          case Err(e) => Poll(Raised(Gateway(e)), calls, None, spz)
          case Ok(spzData) =>
            var saved := SaveResult(spzData, spz, host, native, tempStem + ".ply");
            Poll(saved.0, calls, saved.1, saved.2)
  }

  /** A task that was just started does not time out while no more than the
      timeout has passed; exactly 600 seconds is still in time. */
  lemma NoTimeoutWithinLimit(c: Client, gw: RemoteGateway, prompt: string, start: real, now: real,
                             spz: SpzLoader.Singleton, host: SpzLoader.Host,
                             native: SpzLoader.NativeCall -> SpzLoader.NativeResult, tempStem: string)
    requires gw.addTask(prompt).Ok?
    requires now - start <= GATEWAY_TASK_TIMEOUT_SEC as real
    requires NativeDelivers(RequestModel(c, gw, prompt, start).client, gw, native)
    ensures var started := RequestModel(c, gw, prompt, start).client;
      var poll := GetResult(started, gw, now, spz, host, native, tempStem);
      poll.outcome != Raised(Timeout) && poll.calls != []
  {
    var started := RequestModel(c, gw, prompt, start).client;
    assert HasTask(started) && !TimedOut(started, now);
  }

  /** A fresh client never calls the gateway when polled. */
  lemma FreshClientIsIdle(gw: RemoteGateway, now: real, spz: SpzLoader.Singleton, host: SpzLoader.Host,
                          native: SpzLoader.NativeCall -> SpzLoader.NativeResult, tempStem: string)
    ensures GetResult(NewClient(), gw, now, spz, host, native, tempStem) == Poll(Idle, [], None, spz)
  {
  }
}
