/** The JSON-RPC 2.0 session engine (`Session`): id allocation and the table
    of pending completions, outbound requests and notifications, the inbound
    decode/classify/reply pipeline, the chunk callback, and teardown.

    Each operation takes the session state and its input and returns the new
    state together with the actions it performs. The session and socket
    mutexes only serialise these steps and are not modelled. */
module Sessions {
  import opened Wrappers
  import opened JsonValues
  import opened RpcErrors
  import opened Trace
  import opened Envelope
  import opened Assembly

  /** The state one connection's session owns. */
  datatype Session = Session(nextId: nat, pending: map<int, Callback>, buffer: seq<byte>)

  /** A new state and the actions that led to it. */
  datatype Step = Step(session: Session, actions: seq<Action>)

  /** Every id in the pending table was handed out earlier by the session's allocator. */
  predicate Valid(s: Session)
  {
    forall id | id in s.pending :: 0 <= id < s.nextId
  }

  /** The session as `init(withSocket:)` leaves it. */
  function Init(): (s: Session)
    ensures s.nextId == 0 && s.pending == map[] && s.buffer == []
    ensures Valid(s)
  {
    Session(0, map[], [])
  }

  /** `getNextId`: hands out the current counter and advances it by one. The
      id it hands out is not in the table of a valid session. */
  function GetNextId(s: Session): (r: (nat, Session))
    ensures r.0 == s.nextId && r.1.nextId == r.0 + 1
    ensures r.1.pending == s.pending && r.1.buffer == s.buffer
    ensures Valid(s) ==> r.0 !in s.pending && Valid(r.1)
  {
    (s.nextId, s.(nextId := s.nextId + 1))
  }

  /** The state after `completion` is registered under a freshly allocated id,
      as `sendRemoteRequest` does it under the session mutex. */
  function Register(s: Session, completion: Callback): (r: Session)
    ensures r.nextId == s.nextId + 1 && r.buffer == s.buffer
    ensures s.nextId in r.pending && r.pending[s.nextId] == completion
    ensures forall id | id in r.pending && id != s.nextId :: id in s.pending && r.pending[id] == s.pending[id]
    ensures Valid(s) ==> s.nextId !in s.pending && Valid(r) && |r.pending| == |s.pending| + 1
  {
    var issued := GetNextId(s);
    issued.1.(pending := s.pending[issued.0 := completion])
  }

  // ---------------------------------------------------------------------------
  // Outbound requests and notifications

  /** The request object `sendRemoteRequest` builds. */
  function RequestMessage(name: string, params: Option<map<string, Json>>, id: Option<int>): Json
  {
    var base := map["jsonrpc" := JString("2.0"), "method" := JString(name)];
    var withParams := if params.Some? then base["params" := JObject(params.value)] else base;
    JObject(if id.Some? then withParams["id" := FromInt(id.value)] else withParams)
  }

  /** The request object carries exactly what it was built from. */
  lemma RequestMessageShape(name: string, params: Option<map<string, Json>>, id: Option<int>)
    ensures RequestShape(RequestMessage(name, params, id), name, params, id)
  {
  }

  /** A Request object of section 4 of the JSON-RPC 2.0 specification, or a
      Notification (section 4.1) when `id` is None: the version marker and the
      method name, `params` exactly when given, `id` exactly when given, and
      no other member. */
  predicate RequestShape(m: Json, name: string, params: Option<map<string, Json>>, id: Option<int>)
  {
    && m.JObject?
    && Field(m.fields, "jsonrpc") == Some(JString("2.0"))
    && Field(m.fields, "method") == Some(JString(name))
    && Field(m.fields, "params") == (if params.Some? then Some(JObject(params.value)) else None)
    && Field(m.fields, "id") == (if id.Some? then Some(FromInt(id.value)) else None)
    && m.fields.Keys <= {"jsonrpc", "method", "params", "id"}
  }

  /** `sendRemoteRequest(method, params, completion)`. With a completion, a
      fresh id is issued and the completion is registered under it before
      the message is encoded; without one the message is a notification and
      the state is untouched. A message that cannot be encoded is dropped, and
      a completion registered for it stays pending. */
  function SendRemoteRequest(s: Session, name: string, params: Option<map<string, Json>>,
                             completion: Option<Callback>, encode: Encoder): (r: Step)
    ensures |r.actions| <= 1
    ensures |r.actions| == 1 <==>
              encode(RequestMessage(name, params, if completion.Some? then Some(s.nextId) else None)).Pass?
    ensures forall a | a in r.actions ::
              a.SendBinary? && RequestShape(a.message, name, params, if completion.Some? then Some(s.nextId) else None)
    ensures completion.None? ==> r.session == s
    ensures completion.Some? ==>
              r.session == s.(nextId := s.nextId + 1, pending := s.pending[s.nextId := completion.value])
    ensures completion.Some? && Valid(s) ==> s.nextId !in s.pending && |r.session.pending| == |s.pending| + 1
    ensures Valid(s) ==> Valid(r.session)
  {
    var requestId := if completion.Some? then Some(s.nextId) else None;
    var next := if completion.Some? then Register(s, completion.value) else s;
    var request := RequestMessage(name, params, requestId);
    Step(next, if encode(request).Pass? then [SendBinary(request)] else [])
  }

  // ---------------------------------------------------------------------------
  // Inbound messages

  /** What `JSONSerialization.jsonObject` made of the received bytes: a JSON
      value, or the description of the error it threw. */
  datatype Decoded = Decoded(json: Json) | DecodeFailed(description: string)

  /** How `didReceiveCall` returned: normally (it then owns the completion and
      replies through it later), or by throwing synchronously. */
  datatype CallOutcome = Returned | Threw(thrown: Thrown)

  /** The application's `didReceiveCall`, seen from the session. */
  type CallHandler = (string, map<string, Json>) -> CallOutcome

  /** `JSONRPCError(fromJSON:)`, defined outside this model. */
  type ErrorReader = map<string, Json> -> RpcError

  const UnrecognizedStructure: string := "unrecognized message structure"
  const UnrecognizedVersion: string := "unrecognized JSON-RPC version string"
  const NeitherShape: string := "message is neither request nor response"
  const MethodNotString: string := "method value missing or not a string"
  const BadResponseId: string := "response ID value missing or wrong type"
  const UnknownResponseId: string := "response ID does not correspond to any open request"

  /** `json["id"] ?? NSNull()`: the id every reply to this message carries. */
  function ResponseId(o: map<string, Json>): (id: Json)
    ensures "id" in o ==> id == o["id"]
    ensures "id" !in o ==> id == JNull
  {
    Field(o, "id").GetOr(JNull)
  }

  /** The id of the reply to a decoded input: null unless it is an object. */
  function ReplyId(input: Decoded): Json
  {
    match input
    case Decoded(JObject(o)) => ResponseId(o)
    case _ => JNull
  }

  /** `json["jsonrpc"] as? String == "2.0"`: a missing or non-string marker does not match. */
  predicate VersionOk(o: map<string, Json>)
  {
    Field(o, "jsonrpc") == Some(JString("2.0"))
  }

  /** The method name and parameters `didReceiveRequest` extracts: the method
      must be a string; parameters that are missing or not an object become
      the empty dictionary. */
  function ReadRequest(o: map<string, Json>): (r: Result<(string, map<string, Json>), RpcError>)
    ensures r.Success? <==> "method" in o && o["method"].JString?
    ensures r.Failure? ==> r.error == InvalidRequest(MethodNotString)
    ensures r.Success? ==> o["method"] == JString(r.value.0)
    ensures r.Success? && "params" in o && o["params"].JObject? ==> r.value.1 == o["params"].fields
    ensures r.Success? && !("params" in o && o["params"].JObject?) ==> r.value.1 == map[]
  {
    match Field(o, "method")
    case Some(JString(name)) =>
      var params := match Field(o, "params") case Some(p) => AsObject(p).GetOr(map[]) case None => map[];
      Success((name, params))
    case _ => Failure(InvalidRequest(MethodNotString))
  }

  /** The arguments the resolved completion is called with: `(nil, error)`
      when `error` is an object, otherwise `(result, nil)` with a missing or
      null result passed as nil. */
  function CompletionArguments(o: map<string, Json>, fromJson: ErrorReader): (r: (Option<Json>, Option<RpcError>))
    ensures r.1.Some? <==> "error" in o && o["error"].JObject?
    ensures r.1.Some? ==> r.0.None? && r.1.value == fromJson(o["error"].fields)
    ensures r.1.None? ==> (r.0.Some? <==> "result" in o && o["result"] != JNull)
    ensures r.1.None? && r.0.Some? ==> r.0.value == o["result"]
  {
    match Field(o, "error")
    case Some(JObject(e)) => (None, Some(fromJson(e)))
    case _ =>
      var raw := Field(o, "result");
      (if raw == Some(JNull) then None else raw, None)
  }

  /** `didReceiveResponse`: the id must be a Swift `Int` naming a pending
      request; that entry alone leaves the table and its completion is called.
      Any other response is an InvalidRequest and changes nothing. */
  function ReceiveResponse(s: Session, o: map<string, Json>, fromJson: ErrorReader): (r: Result<Step, RpcError>)
    ensures r.Success? <==> AsInt(ResponseId(o)).Some? && AsInt(ResponseId(o)).value in s.pending
    ensures r.Failure? ==> r.error == InvalidRequest(BadResponseId) || r.error == InvalidRequest(UnknownResponseId)
    ensures r.Success? ==>
              var id := AsInt(ResponseId(o)).value;
              var args := CompletionArguments(o, fromJson);
              && r.value.session == s.(pending := s.pending - {id})
              && r.value.actions == [Invoke(s.pending[id], args.0, args.1)]
  {
    match AsInt(ResponseId(o))
    case None => Failure(InvalidRequest(BadResponseId))
    case Some(id) =>
      if id !in s.pending then
        Failure(InvalidRequest(UnknownResponseId))
      else
        var args := CompletionArguments(o, fromJson);
        Success(Step(s.(pending := s.pending - {id}), [Invoke(s.pending[id], args.0, args.1)]))
  }

  /** The state and actions of the classification stage, and what it threw, if anything. */
  datatype Handled = Handled(session: Session, actions: seq<Action>, thrown: Option<Thrown>)

  /** The body of the `do` block of `didReceiveData` once the message is an
      object: version check, then a request if `method` is present, else a
      response if `result` or `error` is, else an InvalidRequest. */
  function Classify(s: Session, o: map<string, Json>, call: CallHandler, fromJson: ErrorReader): (r: Handled)
    ensures r.session.nextId == s.nextId && r.session.buffer == s.buffer
    ensures forall id | id in r.session.pending :: id in s.pending && r.session.pending[id] == s.pending[id]
    ensures |r.actions| <= 1 && (r.actions == [] ==> r.thrown.Some?)
    ensures !VersionOk(o) ==> r == Handled(s, [], Some(Rpc(InvalidRequest(UnrecognizedVersion))))
  {
    if !VersionOk(o) then
      Handled(s, [], Some(Rpc(InvalidRequest(UnrecognizedVersion))))
    else if "method" in o then
      match ReadRequest(o)
      case Failure(e) => Handled(s, [], Some(Rpc(e)))
      case Success((name, params)) =>
        var dispatched := [Dispatch(name, params, ResponseId(o))];
        match call(name, params)
        case Returned => Handled(s, dispatched, None)
        case Threw(t) => Handled(s, dispatched, Some(t))
    else if "result" in o || "error" in o then
      match ReceiveResponse(s, o, fromJson)
      case Failure(e) => Handled(s, [], Some(Rpc(e)))
      case Success(step) => Handled(step.session, step.actions, None)
    else
      Handled(s, [], Some(Rpc(InvalidRequest(NeitherShape))))
  }

  /** `didReceiveData`: whatever goes wrong before the message is handed on is
      caught and answered with one error envelope carrying the message's id
      (null if it was never read); nothing is thrown out of the pipeline. */
  function DidReceiveData(s: Session, input: Decoded, call: CallHandler, fromJson: ErrorReader,
                          encode: Encoder): (r: Step)
    ensures r.session.nextId == s.nextId && r.session.buffer == s.buffer
    ensures forall id | id in r.session.pending :: id in s.pending && r.session.pending[id] == s.pending[id]
    ensures Valid(s) ==> Valid(r.session)
    ensures |r.actions| <= 2
    ensures forall i | 0 <= i < |r.actions| && r.actions[i].SendBinary? ::
              i == |r.actions| - 1 && ReadEnvelope(r.actions[i].message).Some? &&
              ReadEnvelope(r.actions[i].message).value.id == ReplyId(input)
  {
    match input
    case DecodeFailed(description) =>
      Step(s, SendResponse(JNull, None, Some(ReportedError(Unhandled(description))), encode))
    case Decoded(JObject(o)) =>
      var h := Classify(s, o, call, fromJson);
      var reply := match h.thrown
        case Some(t) => SendResponse(ResponseId(o), None, Some(ReportedError(t)), encode)
        case None => [];
      Step(h.session, h.actions + reply)
    case Decoded(_) =>
      Step(s, SendResponse(JNull, None, Some(ParseError(UnrecognizedStructure)), encode))
  }

  // ---------------------------------------------------------------------------
  // The read callback and teardown

  /** The read callback of `handleSession` for one chunk, handing a completed
      message to `didReceiveBinary`. `decode` is `JSONSerialization.jsonObject`. */
  function OnChunk(s: Session, bytes: Option<seq<byte>>, isFinal: bool, decode: seq<byte> -> Decoded,
                   call: CallHandler, fromJson: ErrorReader, encode: Encoder): (r: Step)
    ensures r.session.nextId == s.nextId
    ensures forall id | id in r.session.pending :: id in s.pending && r.session.pending[id] == s.pending[id]
    ensures Valid(s) ==> Valid(r.session)
    ensures |s.buffer| <= MaxMessageBytes ==> |r.session.buffer| <= MaxMessageBytes
  {
    var assembled := ReadChunk(s.buffer, bytes, isFinal);
    var next := s.(buffer := assembled.buffer);
    match assembled.delivered
    case Some(message) =>
      var handled := DidReceiveData(next, decode(message), call, fromJson, encode);
      Step(handled.session, assembled.actions + handled.actions)
    case None => Step(next, assembled.actions)
  }

  /** The ids of a sequence, as a set. */
  ghost function Elems(order: seq<int>): set<int>
  {
    set id | id in order
  }

  /** `order` lists every id of the table exactly once: an iteration order of the dictionary. */
  predicate IsEnumeration(order: seq<int>, pending: map<int, Callback>)
  {
    && (forall i, j | 0 <= i < j < |order| :: order[i] != order[j])
    && (forall id | id in pending :: id in order)
    && (forall i | 0 <= i < |order| :: order[i] in pending)
  }

  /** A sequence without repetitions has as many distinct elements as it has elements. */
  lemma {:induction false} DistinctCount(order: seq<int>)
    requires forall i, j | 0 <= i < j < |order| :: order[i] != order[j]
    ensures |Elems(order)| == |order|
  {
    if order != [] {
      var front := order[..|order| - 1];
      DistinctCount(front);
      assert Elems(order) == Elems(front) + {order[|order| - 1]};
      assert order[|order| - 1] !in Elems(front);
    }
  }

  /** `sessionWasClosed`: every pending completion is called once with an
      InternalError "Session closed", in the dictionary's iteration order,
      which Swift leaves unspecified and is therefore an input here. The table
      itself is left as it was. */
  method SessionWasClosed(s: Session, order: seq<int>) returns (after: Session, actions: seq<Action>)
    requires IsEnumeration(order, s.pending)
    ensures after == s
    ensures |actions| == |order| == |s.pending|
    ensures forall i | 0 <= i < |actions| ::
              order[i] in s.pending && actions[i] == Invoke(s.pending[order[i]], None, Some(InternalError("Session closed")))
  {
    after := s;
    actions := [];
    var i := 0;
    while i < |order|
      invariant 0 <= i <= |order| && |actions| == i
      invariant forall k | 0 <= k < i ::
                  order[k] in s.pending && actions[k] == Invoke(s.pending[order[k]], None, Some(InternalError("Session closed")))
    {
      actions := actions + [Invoke(s.pending[order[i]], None, Some(InternalError("Session closed")))];
      i := i + 1;
    }
    DistinctCount(order);
    assert Elems(order) <= s.pending.Keys;
    forall id | id in s.pending.Keys
      ensures id in Elems(order)
    {
      assert id in order;
    }
    assert s.pending.Keys == Elems(order);
  }
}
