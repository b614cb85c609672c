/** Response envelopes: building the reply to an inbound message, and sending
    it with the one-step fallback the engine uses when the reply cannot be
    encoded or sent (`makeResponse` and `sendResponse` in `didReceiveData`). */
module Envelope {
  import opened Wrappers
  import opened JsonValues
  import opened RpcErrors
  import opened Trace

  /** What a reply means to the peer that reads it: the id it answers and
      either the call's result or its error. */
  datatype Reply = Reply(id: Json, outcome: Result<Json, RpcError>)

  /** The meaning of a completion called with `(result, error)`: an error wins
      over a result, and a missing result is a successful null. */
  function ReplyOutcome(result: Option<Json>, error: Option<RpcError>): Result<Json, RpcError>
  {
    if error.Some? then Failure(error.value) else Success(result.GetOr(JNull))
  }

  /** The JSON object for an error: `code` and `message`, and `data` only when the error has some. */
  function ErrorObject(e: RpcError): Json
  {
    var base := map["code" := FromInt(e.code), "message" := JString(e.message)];
    match e.data
    case Some(d) => JObject(base["data" := d])
    case None => JObject(base)
  }

  /** `makeResponse(result, error)` with the captured `responseId`. */
  function MakeResponse(id: Json, result: Option<Json>, error: Option<RpcError>): (r: Json)
    ensures r.JObject? && "jsonrpc" in r.fields && r.fields["jsonrpc"] == JString("2.0")
    ensures "id" in r.fields && r.fields["id"] == id
    ensures ("error" in r.fields) == error.Some? && ("result" in r.fields) == error.None?
    ensures error.Some? ==>
              r.fields["error"].JObject? && ("data" in r.fields["error"].fields <==> error.value.data.Some?)
  {
    var base := map["jsonrpc" := JString("2.0"), "id" := id];
    match error
    case Some(e) => JObject(base["error" := ErrorObject(e)])
    case None => JObject(base["result" := result.GetOr(JNull)])
  }

  /** How a peer reads an error object; None when it is not one. */
  function ReadError(j: Json): (r: Option<RpcError>)
    ensures r.Some? ==> j.JObject? && j.fields.Keys <= {"code", "message", "data"}
  {
    match j
    case JObject(o) =>
      var code := if "code" in o then AsInteger(o["code"]) else None;
      var message := if "message" in o then AsString(o["message"]) else None;
      if code.Some? && message.Some? && o.Keys <= {"code", "message", "data"} then
        Some(RpcError(code.value, message.value, Field(o, "data")))
      else
        None
    case _ => None
  }

  /** How a peer reads a JSON-RPC 2.0 response object (section 5 of the
      JSON-RPC 2.0 specification): version marker, `id`, and exactly one of
      `result` or `error`, nothing else. None when the value is not one. */
  function ReadEnvelope(j: Json): (r: Option<Reply>)
    ensures r.Some? ==> j.JObject? && "id" in j.fields && r.value.id == j.fields["id"]
    ensures r.Some? ==> ("error" in j.fields) != ("result" in j.fields)
  {
    match j
    case JObject(o) =>
      if Field(o, "jsonrpc") != Some(JString("2.0")) || "id" !in o then
        None
      else if o.Keys == {"jsonrpc", "id", "result"} then
        Some(Reply(o["id"], Success(o["result"])))
      else if o.Keys == {"jsonrpc", "id", "error"} then
        match ReadError(o["error"])
        case Some(e) => Some(Reply(o["id"], Failure(e)))
        case None => None
      else
        None
    case _ => None
  }

  /** Every envelope reads back as the reply it was made for. */
  lemma EnvelopeRoundTrip(id: Json, result: Option<Json>, error: Option<RpcError>)
    ensures ReadEnvelope(MakeResponse(id, result, error)) == Some(Reply(id, ReplyOutcome(result, error)))
  {
    var o := MakeResponse(id, result, error).fields;
    match error
    case Some(e) =>
      IntRoundTrip(e.code);
      assert o.Keys == {"jsonrpc", "id", "error"};
      assert o.Keys != {"jsonrpc", "id", "result"} by { assert "result" !in o; }
      assert ReadError(ErrorObject(e)) == Some(e);
    case None =>
      assert o.Keys == {"jsonrpc", "id", "result"};
  }

  /** `JSONSerialization` followed by the write to the transport: Pass, or
      Fail with the description of the error either of them throws. */
  type Encoder = Json -> Outcome<string>

  /** `sendResponse(result, error)`: the envelope is encoded and handed to the
      transport; if that fails, one envelope with the local code 2 and the same
      id is tried instead; if that fails too, nothing is sent and nothing is
      thrown. */
  function SendResponse(id: Json, result: Option<Json>, error: Option<RpcError>,
                        encode: Encoder): (r: seq<Action>)
    ensures |r| <= 1
    ensures forall a | a in r :: a.SendBinary? && ReadEnvelope(a.message).Some? && ReadEnvelope(a.message).value.id == id
    ensures encode(MakeResponse(id, result, error)).Pass? ==> r == [SendBinary(MakeResponse(id, result, error))]
    ensures encode(MakeResponse(id, result, error)).Pass? ==>
              ReadEnvelope(r[0].message) == Some(Reply(id, ReplyOutcome(result, error)))
    ensures encode(MakeResponse(id, result, error)).Fail? ==>
              var reason := encode(MakeResponse(id, result, error)).error;
              (r == [] <==> encode(MakeResponse(id, None, Some(EncodeFailed(reason)))).Fail?) &&
              (r != [] ==> ReadEnvelope(r[0].message) == Some(Reply(id, Failure(EncodeFailed(reason)))))
  {
    var first := MakeResponse(id, result, error);
    match encode(first)
    case Pass =>
      EnvelopeRoundTrip(id, result, error);
      [SendBinary(first)]
    case Fail(reason) =>
      var second := MakeResponse(id, None, Some(EncodeFailed(reason)));
      EnvelopeRoundTrip(id, None, Some(EncodeFailed(reason)));
      match encode(second)
      case Pass => [SendBinary(second)]
      case Fail(_) => []
  }
}
