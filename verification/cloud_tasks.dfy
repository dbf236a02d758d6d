/** The Cloud Tasks callback route: `verifyCloudTasksRequest` and the status
    decision of its `POST` handler. The Slack event handler is a parameter
    whose only observable result is whether it returned or threw. */
module CloudTasksRoute {
  import opened Wrappers

  /** A parsed JSON value. */
  datatype Json =
    | JNull
    | JBool(b: bool)
    | JNumber(n: real)
    | JString(s: string)
    | JArray(items: seq<Json>)
    | JObject(fields: map<string, Json>)

  /** JavaScript truthiness of a parsed JSON value. */
  predicate TruthyJson(v: Json) {
    match v
    case JNull => false
    case JBool(b) => b
    case JNumber(n) => n != 0.0
    case JString(s) => s != ""
    case JArray(_) => true
    case JObject(_) => true
  }

  /** The request body: text that `request.json()` rejects, or a value. */
  datatype Body = Unparsable | Parsed(value: Json)

  datatype Request = Request(headers: HeaderMap, body: Body)

  /** How the call to the Slack event handler ended. */
  datatype HandlerOutcome = Completed | Threw

  datatype Response = Response(status: int, body: Json)

  /** The response, whether the body was read, and the events handed to the
      handler. */
  datatype Trace = Trace(response: Response, bodyRead: bool, handled: seq<Json>)

  const QueueNameHeader: string := "X-CloudTasks-QueueName"
  const TaskNameHeader: string := "X-CloudTasks-TaskName"

  function AsciiLowerChar(c: char): (r: char)
    ensures 'A' <= c <= 'Z' ==> r as int == c as int + 32
    ensures !('A' <= c <= 'Z') ==> r == c
    ensures !('A' <= r <= 'Z')
  {
    if 'A' <= c <= 'Z' then (c as int + 32) as char else c
  }

  /** ASCII lower-casing, as header names are normalised. */
  function AsciiLower(s: string): (r: string)
    ensures |r| == |s|
    ensures forall i | 0 <= i < |s| :: r[i] == AsciiLowerChar(s[i])
  {
    seq(|s|, i requires 0 <= i < |s| => AsciiLowerChar(s[i]))
  }

  /** Lower-casing twice is lower-casing once. */
  lemma AsciiLowerIdempotent(s: string)
    ensures AsciiLower(AsciiLower(s)) == AsciiLower(s)
  {
    var l := AsciiLower(s);
    forall i | 0 <= i < |s| ensures AsciiLower(l)[i] == l[i] {
      assert !('A' <= l[i] <= 'Z');
    }
  }

  /** The Fetch `Headers` object: header names are stored lower-cased. */
  type HeaderMap = m: map<string, string> | forall k | k in m :: AsciiLower(k) == k
    witness map[]

  /** `headers.get(name)`: `null` (None) when the header is absent. */
  function HeaderGet(headers: HeaderMap, name: string): (r: Option<string>)
    ensures r.Some? <==> AsciiLower(name) in headers
    ensures r.Some? ==> r.value == headers[AsciiLower(name)]
  {
    var key := AsciiLower(name);
    if key in headers then Some(headers[key]) else None
  }

  /** Header lookup ignores the letter case of the name asked for. */
  lemma HeaderGetIgnoresCase(headers: HeaderMap, a: string, b: string)
    requires AsciiLower(a) == AsciiLower(b)
    ensures HeaderGet(headers, a) == HeaderGet(headers, b)
  {
  }

  /** `verifyCloudTasksRequest`: both Cloud Tasks headers are present and
      non-empty; nothing else about the request is looked at. */
  function VerifyCloudTasksRequest(headers: HeaderMap): (ok: bool)
    ensures ok <==> Truthy(HeaderGet(headers, QueueNameHeader)) && Truthy(HeaderGet(headers, TaskNameHeader))
  {
    var queueName := HeaderGet(headers, QueueNameHeader);
    var taskName := HeaderGet(headers, TaskNameHeader);
    !(!Truthy(queueName) || !Truthy(taskName))
  }

  /** The lower-cased names the two headers are stored under. */
  lemma StoredQueueName()
    ensures AsciiLower(QueueNameHeader) == "x-cloudtasks-queuename"
  {
  }

  lemma StoredTaskName()
    ensures AsciiLower(TaskNameHeader) == "x-cloudtasks-taskname"
  {
  }

  /** Verification looks at the two Cloud Tasks headers and at nothing else:
      requests that agree on them are verified alike. */
  lemma VerifyDependsOnlyOnTaskHeaders(h1: HeaderMap, h2: HeaderMap)
    requires HeaderGet(h1, QueueNameHeader) == HeaderGet(h2, QueueNameHeader)
    requires HeaderGet(h1, TaskNameHeader) == HeaderGet(h2, TaskNameHeader)
    ensures VerifyCloudTasksRequest(h1) == VerifyCloudTasksRequest(h2)
  {
  }

  /** `const { event } = body`: the `event` property, `undefined` (None) for
      any value that is not an object holding one. */
  function EventOf(body: Json): (r: Option<Json>)
    requires !body.JNull?
    ensures r.Some? <==> body.JObject? && "event" in body.fields
  {
    if body.JObject? && "event" in body.fields then Some(body.fields["event"]) else None
  }

  /** `{ success: true }`: an object whose only property is a truthy
      `success`. */
  function SuccessBody(): (j: Json)
    ensures j.JObject? && j.fields.Keys == {"success"} && TruthyJson(j.fields["success"])
  {
    JObject(map["success" := JBool(true)])
  }

  /** `{ error: message }`: an object whose only property is `error`, holding
      the message; it is never mistaken for the success body. */
  function ErrorBody(message: string): (j: Json)
    ensures j.JObject? && j.fields.Keys == {"error"} && j.fields["error"] == JString(message)
    ensures j != SuccessBody()
  {
    JObject(map["error" := JString(message)])
  }

  /** `POST`: the guard chain of the route. Reading the body, destructuring
      a `null` body, and the handler can throw; any of those ends in 500. */
  function Post(request: Request, handler: Json -> HandlerOutcome): (t: Trace)
    ensures t.response.status in {200, 400, 401, 500}
    ensures t.response.status == 401 <==> !VerifyCloudTasksRequest(request.headers)
    ensures t.response.status == 401 ==> !t.bodyRead && t.handled == [] && t.response.body == ErrorBody("Unauthorized")
    ensures t.bodyRead <==> VerifyCloudTasksRequest(request.headers)
    ensures t.response.status == 400 <==>
              VerifyCloudTasksRequest(request.headers) && request.body.Parsed? && !request.body.value.JNull?
              && !(EventOf(request.body.value).Some? && TruthyJson(EventOf(request.body.value).value))
    ensures t.response.status == 400 ==> t.handled == [] && t.response.body == ErrorBody("Missing event data")
    ensures |t.handled| <= 1
    ensures t.handled != [] <==>
              VerifyCloudTasksRequest(request.headers) && request.body.Parsed? && !request.body.value.JNull?
              && EventOf(request.body.value).Some? && TruthyJson(EventOf(request.body.value).value)
    ensures t.handled != [] ==> t.handled == [EventOf(request.body.value).value]
    ensures t.response.status == 200 <==> t.handled != [] && handler(t.handled[0]) == Completed
    ensures t.response.status == 200 ==> t.response.body == SuccessBody()
    ensures t.response.status == 500 ==> t.response.body == ErrorBody("Internal server error")
  {
    if !VerifyCloudTasksRequest(request.headers) then
      Trace(Response(401, ErrorBody("Unauthorized")), false, [])
    else if request.body.Unparsable? || request.body.value.JNull? then
      Trace(Response(500, ErrorBody("Internal server error")), true, [])
    else
      var event := EventOf(request.body.value);
      if event.None? || !TruthyJson(event.value) then
        Trace(Response(400, ErrorBody("Missing event data")), true, [])
      else if handler(event.value) == Completed then
        Trace(Response(200, SuccessBody()), true, [event.value])
      else
        Trace(Response(500, ErrorBody("Internal server error")), true, [event.value])
  }

  /** An unverified request is refused the same way whatever its body and
      whatever the handler would do. */
  lemma UnverifiedIgnoresBody(r1: Request, r2: Request, h1: Json -> HandlerOutcome, h2: Json -> HandlerOutcome)
    requires r1.headers == r2.headers && !VerifyCloudTasksRequest(r1.headers)
    ensures Post(r1, h1) == Post(r2, h2)
  {
  }

  /** Any failure while reading or handling: a body that cannot be parsed, a
      `null` body, or a handler that throws on a truthy event, gives 500. */
  lemma FailuresGive500(request: Request, handler: Json -> HandlerOutcome)
    requires VerifyCloudTasksRequest(request.headers)
    requires request.body.Unparsable? || request.body.value.JNull?
          || (EventOf(request.body.value).Some? && TruthyJson(EventOf(request.body.value).value)
              && handler(EventOf(request.body.value).value) == Threw)
    ensures Post(request, handler).response.status == 500
  {
  }

  /** A task carrying both headers and an object body whose `event` is an
      object is handed to the handler once, and answered 200 when the
      handler returns. The two stored names are already lower-case, so the
      request's headers form a header map. */
  lemma HandledEventExample(queue: string, task: string, event: Json, handler: Json -> HandlerOutcome)
    requires queue != "" && task != "" && event.JObject? && handler(event) == Completed
    ensures AsciiLower("x-cloudtasks-queuename") == "x-cloudtasks-queuename"
         && AsciiLower("x-cloudtasks-taskname") == "x-cloudtasks-taskname"
    ensures var request := Request(map["x-cloudtasks-queuename" := queue, "x-cloudtasks-taskname" := task],
                                   Parsed(JObject(map["event" := event])));
            var t := Post(request, handler);
            t.response == Response(200, SuccessBody()) && t.handled == [event]
  {
    StoredQueueName();
    StoredTaskName();
    AsciiLowerIdempotent(QueueNameHeader);
    AsciiLowerIdempotent(TaskNameHeader);
  }
}
