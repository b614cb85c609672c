/** Properties of the session engine that relate several steps, or pin down
    one step for a class of inputs: the classification order of inbound
    messages, response correlation, fresh request ids, and an exchange between
    two sessions. */
module SessionProperties {
  import opened Wrappers
  import opened JsonValues
  import opened RpcErrors
  import opened Trace
  import opened Envelope
  import opened Sessions

  /** An encoder under which every message encodes and every write succeeds. */
  ghost predicate Reliable(encode: Encoder)
  {
    forall j :: encode(j).Pass?
  }

  /** The reply the last action of a step sends, as the peer reads it. */
  function SentReply(actions: seq<Action>): Option<Reply>
  {
    if |actions| > 0 && actions[|actions| - 1].SendBinary? then ReadEnvelope(actions[|actions| - 1].message)
    else None
  }

  // ---------------------------------------------------------------------------
  // Classification order

  /** Bytes Foundation cannot parse throw an error that is not a `JSONRPCError`:
      the reply is the local code 1 with a null id. */
  lemma UndecodableIsUnhandled(s: Session, description: string, call: CallHandler, fromJson: ErrorReader,
                               encode: Encoder)
    requires Reliable(encode)
    ensures var r := DidReceiveData(s, DecodeFailed(description), call, fromJson, encode);
            && r.session == s && |r.actions| == 1
            && SentReply(r.actions) == Some(Reply(JNull, Failure(
                 RpcError(UnhandledCode, "Unhandled error encountered during call", Some(JString(description))))))
  {
  }

  /** A top-level JSON array, the one decoded value that is not an object
      (Foundation rejects top-level scalars without `.fragmentsAllowed`), is
      a ParseError, answered with a null id. */
  lemma NonObjectIsParseError(s: Session, j: Json, call: CallHandler, fromJson: ErrorReader, encode: Encoder)
    requires j.JArray? && Reliable(encode)
    ensures var r := DidReceiveData(s, Decoded(j), call, fromJson, encode);
            && r.session == s && |r.actions| == 1
            && SentReply(r.actions) == Some(Reply(JNull, Failure(ParseError(UnrecognizedStructure))))
  {
  }

  /** A missing, non-string or wrong version marker is an InvalidRequest
      carrying the message's own id, whatever else the message holds. */
  lemma VersionChecked(s: Session, o: map<string, Json>, call: CallHandler, fromJson: ErrorReader,
                       encode: Encoder)
    requires !VersionOk(o) && Reliable(encode)
    ensures var r := DidReceiveData(s, Decoded(JObject(o)), call, fromJson, encode);
            && r.session == s && |r.actions| == 1
            && SentReply(r.actions) == Some(Reply(ResponseId(o), Failure(InvalidRequest(UnrecognizedVersion))))
  {
  }

  /** With the right version, a `method` member makes the message a request
      even when it also has `result` or `error`: the pending table is never
      consulted. A string method is dispatched with the message's id as the
      reply id, and a reply is sent now only if the handler throws. */
  lemma MethodWins(s: Session, o: map<string, Json>, call: CallHandler, fromJson: ErrorReader, encode: Encoder)
    requires VersionOk(o) && "method" in o && Reliable(encode)
    ensures var r := DidReceiveData(s, Decoded(JObject(o)), call, fromJson, encode);
            && r.session == s
            && (o["method"].JString? ==>
                  var params := ReadRequest(o).value.1;
                  && r.actions[0] == Dispatch(o["method"].s, params, ResponseId(o))
                  && (|r.actions| == 1 <==> call(o["method"].s, params) == Returned))
            && (!o["method"].JString? ==>
                  |r.actions| == 1 &&
                  SentReply(r.actions) == Some(Reply(ResponseId(o), Failure(InvalidRequest(MethodNotString)))))
  {
  }

  /** A handler that throws is answered with its error, or with the local code 1
      when what it threw is not a `JSONRPCError`. */
  lemma ThrowingHandlerAnswered(s: Session, o: map<string, Json>, call: CallHandler, fromJson: ErrorReader,
                                encode: Encoder)
    requires VersionOk(o) && "method" in o && o["method"].JString? && Reliable(encode)
    requires call(o["method"].s, ReadRequest(o).value.1).Threw?
    ensures var r := DidReceiveData(s, Decoded(JObject(o)), call, fromJson, encode);
            var thrown := call(o["method"].s, ReadRequest(o).value.1).thrown;
            && |r.actions| == 2
            && SentReply(r.actions) == Some(Reply(ResponseId(o), Failure(ReportedError(thrown))))
  {
  }

  /** A message with the right version but none of `method`, `result` or
      `error` is an InvalidRequest with its own id. */
  lemma NeitherIsInvalid(s: Session, o: map<string, Json>, call: CallHandler, fromJson: ErrorReader,
                         encode: Encoder)
    requires VersionOk(o) && "method" !in o && "result" !in o && "error" !in o && Reliable(encode)
    ensures var r := DidReceiveData(s, Decoded(JObject(o)), call, fromJson, encode);
            && r.session == s && |r.actions| == 1
            && SentReply(r.actions) == Some(Reply(ResponseId(o), Failure(InvalidRequest(NeitherShape))))
  {
  }

  // ---------------------------------------------------------------------------
  // Responses

  /** A response message: the right version, no `method`, and a `result` or an `error`. */
  predicate IsResponse(o: map<string, Json>)
  {
    VersionOk(o) && "method" !in o && ("result" in o || "error" in o)
  }

  /** A response whose id is pending removes that entry alone, calls its
      completion, and sends nothing. */
  lemma ResponseResolves(s: Session, o: map<string, Json>, call: CallHandler, fromJson: ErrorReader,
                         encode: Encoder)
    requires IsResponse(o) && AsInt(ResponseId(o)).Some? && AsInt(ResponseId(o)).value in s.pending
    ensures var r := DidReceiveData(s, Decoded(JObject(o)), call, fromJson, encode);
            var id := AsInt(ResponseId(o)).value;
            var args := CompletionArguments(o, fromJson);
            && r.session == s.(pending := s.pending - {id})
            && r.actions == [Invoke(s.pending[id], args.0, args.1)]
  {
  }

  /** A response without a usable id, or for an id that is not pending, is an
      InvalidRequest; the table is unchanged and no completion is called. */
  lemma ResponseRejected(s: Session, o: map<string, Json>, call: CallHandler, fromJson: ErrorReader,
                         encode: Encoder)
    requires IsResponse(o) && Reliable(encode)
    requires AsInt(ResponseId(o)).None? || AsInt(ResponseId(o)).value !in s.pending
    ensures var r := DidReceiveData(s, Decoded(JObject(o)), call, fromJson, encode);
            && r.session == s && |r.actions| == 1
            && SentReply(r.actions) == Some(Reply(ResponseId(o), Failure(InvalidRequest(
                 if AsInt(ResponseId(o)).None? then BadResponseId else UnknownResponseId))))
  {
  }

  /** The same response delivered twice resolves its request once: the second
      copy is rejected and leaves the table as the first left it. */
  lemma ResponseReplayRejected(s: Session, o: map<string, Json>, call: CallHandler, fromJson: ErrorReader,
                               encode: Encoder)
    requires IsResponse(o) && AsInt(ResponseId(o)).Some? && AsInt(ResponseId(o)).value in s.pending
    requires Reliable(encode)
    ensures var first := DidReceiveData(s, Decoded(JObject(o)), call, fromJson, encode);
            var second := DidReceiveData(first.session, Decoded(JObject(o)), call, fromJson, encode);
            && first.actions[0].Invoke?
            && second.session == first.session
            && SentReply(second.actions) == Some(Reply(ResponseId(o), Failure(InvalidRequest(UnknownResponseId))))
  {
    var first := DidReceiveData(s, Decoded(JObject(o)), call, fromJson, encode);
    ResponseResolves(s, o, call, fromJson, encode);
    assert AsInt(ResponseId(o)).value !in first.session.pending;
    ResponseRejected(first.session, o, call, fromJson, encode);
  }

  // ---------------------------------------------------------------------------
  // Concrete exchanges

  /** `{"jsonrpc":"2.0","id":7,"result":null}` with no request 7 pending is an
      InvalidRequest answered with id 7, and the table is unchanged. */
  lemma UnknownResponseIdScenario(s: Session, call: CallHandler, fromJson: ErrorReader, encode: Encoder)
    requires 7 !in s.pending && Reliable(encode)
    ensures var message := map["jsonrpc" := JString("2.0"), "id" := JNumber(7.0), "result" := JNull];
            var r := DidReceiveData(s, Decoded(JObject(message)), call, fromJson, encode);
            && r.session == s
            && SentReply(r.actions) == Some(Reply(JNumber(7.0), Failure(InvalidRequest(UnknownResponseId))))
  {
    var message := map["jsonrpc" := JString("2.0"), "id" := JNumber(7.0), "result" := JNull];
    assert AsInt(ResponseId(message)) == Some(7) by { IntRoundTrip(7); }
    ResponseRejected(s, message, call, fromJson, encode);
  }

  /** `{"jsonrpc":"2.0","id":1,"method":"ping"}` is dispatched with reply id 1,
      and when the handler completes with `"pong"` the reply is exactly
      `{"jsonrpc":"2.0","id":1,"result":"pong"}`. */
  lemma PingPongScenario(s: Session, call: CallHandler, fromJson: ErrorReader, encode: Encoder)
    requires call("ping", map[]) == Returned && Reliable(encode)
    ensures var message := map["jsonrpc" := JString("2.0"), "id" := JNumber(1.0), "method" := JString("ping")];
            var r := DidReceiveData(s, Decoded(JObject(message)), call, fromJson, encode);
            && r == Step(s, [Dispatch("ping", map[], JNumber(1.0))])
            && SendResponse(JNumber(1.0), Some(JString("pong")), None, encode) ==
               [SendBinary(JObject(map["jsonrpc" := JString("2.0"), "id" := JNumber(1.0), "result" := JString("pong")]))]
  {
  }

  /** As written, a notification whose handler throws is still answered, with
      a null id; section 4.1 of the JSON-RPC 2.0 specification says a
      notification is never answered. */
  lemma NotificationAnswered(s: Session, failure: Thrown, call: CallHandler, fromJson: ErrorReader,
                             encode: Encoder)
    requires call("fire-and-forget", map[]) == Threw(failure) && Reliable(encode)
    ensures var message := map["jsonrpc" := JString("2.0"), "method" := JString("fire-and-forget")];
            var r := DidReceiveData(s, Decoded(JObject(message)), call, fromJson, encode);
            && r.actions[0] == Dispatch("fire-and-forget", map[], JNull)
            && SentReply(r.actions) == Some(Reply(JNull, Failure(ReportedError(failure))))
  {
  }

  // ---------------------------------------------------------------------------
  // Outbound requests

  /** One outbound call that expects a reply. */
  datatype OutboundCall = OutboundCall(name: string, params: Option<map<string, Json>>, completion: Callback)

  /** `sendRemoteRequest` with a completion, once per call, in order. */
  function Issue(s: Session, calls: seq<OutboundCall>, encode: Encoder): Step
    decreases |calls|
  {
    if calls == [] then
      Step(s, [])
    else
      var first := SendRemoteRequest(s, calls[0].name, calls[0].params, Some(calls[0].completion), encode);
      var rest := Issue(first.session, calls[1..], encode);
      Step(rest.session, first.actions + rest.actions)
  }

  /** The table of `s` holds `callback` under `id`. */
  predicate Registered(s: Session, id: int, callback: Callback)
  {
    id in s.pending && s.pending[id] == callback
  }

  /** The completions of a run of calls, in order. */
  function Completions(calls: seq<OutboundCall>): (cs: seq<Callback>)
    ensures |cs| == |calls| && forall i | 0 <= i < |calls| :: cs[i] == calls[i].completion
  {
    seq(|calls|, i requires 0 <= i < |calls| => calls[i].completion)
  }

  /** The state after registering each completion in turn. */
  function Allocate(s: Session, completions: seq<Callback>): Session
    decreases |completions|
  {
    if completions == [] then s else Allocate(Register(s, completions[0]), completions[1..])
  }

  /** The state a run of requests leaves depends only on their completions. */
  lemma {:induction false} IssueAllocates(s: Session, calls: seq<OutboundCall>, encode: Encoder)
    ensures Issue(s, calls, encode).session == Allocate(s, Completions(calls))
    decreases |calls|
  {
    if calls != [] {
      var first := SendRemoteRequest(s, calls[0].name, calls[0].params, Some(calls[0].completion), encode);
      IssueAllocates(first.session, calls[1..], encode);
      assert Completions(calls)[1..] == Completions(calls[1..]);
    }
  }

  /** Registering completions one after another hands out the ids `nextId`,
      `nextId + 1`, ... in order: none of them already pending, each holding
      its own completion, and no earlier entry lost or overwritten. */
  lemma {:induction false} AllocatedIdsFresh(s: Session, completions: seq<Callback>)
    requires Valid(s)
    ensures forall id | id in s.pending :: Registered(Allocate(s, completions), id, s.pending[id])
    ensures forall i | 0 <= i < |completions| ::
              s.nextId + i !in s.pending && Registered(Allocate(s, completions), s.nextId + i, completions[i])
    ensures Allocate(s, completions).nextId == s.nextId + |completions|
    ensures Valid(Allocate(s, completions))
    ensures |Allocate(s, completions).pending| == |s.pending| + |completions|
    decreases |completions|
  {
    if completions != [] {
      var next := Register(s, completions[0]);
      AllocatedIdsFresh(next, completions[1..]);
      forall id | id in s.pending
        ensures Registered(next, id, s.pending[id])
      {
        assert id != s.nextId;
      }
      assert Registered(next, s.nextId, completions[0]);
      forall i | 1 <= i < |completions|
        ensures Registered(Allocate(s, completions), s.nextId + i, completions[i])
      {
        assert completions[i] == completions[1..][i - 1];
      }
    }
  }

  /** Successive requests get the ids `nextId`, `nextId + 1`, ... in order:
      strictly increasing, none already pending, each registered with its own
      completion, and no earlier entry lost or overwritten. */
  lemma IssuedIdsFresh(s: Session, calls: seq<OutboundCall>, encode: Encoder)
    requires Valid(s)
    ensures var after := Issue(s, calls, encode).session;
            && after.nextId == s.nextId + |calls|
            && Valid(after)
            && |after.pending| == |s.pending| + |calls|
            && (forall id | id in s.pending :: Registered(after, id, s.pending[id]))
            && (forall i | 0 <= i < |calls| ::
                  s.nextId + i !in s.pending && Registered(after, s.nextId + i, calls[i].completion))
  {
    IssueAllocates(s, calls, encode);
    AllocatedIdsFresh(s, Completions(calls));
  }

  /** With a reliable encoder, one request with a completion registers it and
      sends exactly its request object. */
  lemma SendsOneRequest(s: Session, call: OutboundCall, encode: Encoder)
    requires Reliable(encode)
    ensures SendRemoteRequest(s, call.name, call.params, Some(call.completion), encode)
            == Step(Register(s, call.completion), [SendBinary(RequestMessage(call.name, call.params, Some(s.nextId)))])
  {
  }

  /** The messages a run of requests sends when every message encodes: one
      request object per call, numbered upwards from `start`. */
  function Numbered(start: int, calls: seq<OutboundCall>): seq<Action>
    decreases |calls|
  {
    if calls == [] then []
    else [SendBinary(RequestMessage(calls[0].name, calls[0].params, Some(start)))] + Numbered(start + 1, calls[1..])
  }

  /** The k-th message of `Numbered` is the k-th call's request with id `start + k`. */
  lemma {:induction false} NumberedAt(start: int, calls: seq<OutboundCall>, k: nat)
    requires k < |calls|
    ensures |Numbered(start, calls)| == |calls|
    ensures Numbered(start, calls)[k] == SendBinary(RequestMessage(calls[k].name, calls[k].params, Some(start + k)))
    decreases |calls|
  {
    if k == 0 {
      if |calls| > 1 {
        NumberedAt(start + 1, calls[1..], 0);
      }
    } else {
      NumberedAt(start + 1, calls[1..], k - 1);
      assert calls[1..][k - 1] == calls[k];
    }
  }

  /** With a reliable encoder, a run of requests begins with the first call's
      request under the session's next id. */
  lemma IssueFirst(s: Session, calls: seq<OutboundCall>, encode: Encoder)
    requires calls != [] && Reliable(encode)
    ensures var rest := Issue(Register(s, calls[0].completion), calls[1..], encode);
            Issue(s, calls, encode).actions
            == [SendBinary(RequestMessage(calls[0].name, calls[0].params, Some(s.nextId)))] + rest.actions
  {
    SendsOneRequest(s, calls[0], encode);
  }

  /** When every message encodes, a run of requests sends exactly one request
      object per call, in call order, numbered upwards from the session's next
      id (see `NumberedShape`): the ids on the wire are strictly increasing. */
  lemma {:induction false} IssuedMessagesNumbered(s: Session, calls: seq<OutboundCall>, encode: Encoder)
    requires Reliable(encode)
    ensures Issue(s, calls, encode).actions == Numbered(s.nextId, calls)
    decreases |calls|
  {
    if calls != [] {
      IssueFirst(s, calls, encode);
      var next := Register(s, calls[0].completion);
      IssuedMessagesNumbered(next, calls[1..], encode);
      assert next.nextId == s.nextId + 1;
    }
  }

  /** Each message of `Numbered` is a request object for its call, with id
      `start` plus its position. */
  lemma NumberedShape(start: int, calls: seq<OutboundCall>)
    ensures var sent := Numbered(start, calls);
            && |sent| == |calls|
            && forall i | 0 <= i < |calls| ::
                 sent[i].SendBinary? && RequestShape(sent[i].message, calls[i].name, calls[i].params, Some(start + i))
  {
    if calls != [] {
      NumberedAt(start, calls, 0);
    }
    forall i | 0 <= i < |calls|
      ensures Numbered(start, calls)[i].SendBinary?
      ensures RequestShape(Numbered(start, calls)[i].message, calls[i].name, calls[i].params, Some(start + i))
    {
      NumberedAt(start, calls, i);
      RequestMessageShape(calls[i].name, calls[i].params, Some(start + i));
    }
  }

  /** An outbound request that cannot be encoded is not sent, but as written its
      completion stays registered under the id it was given. */
  lemma UnsentRequestStaysPending(s: Session, name: string, params: Option<map<string, Json>>, h: Callback,
                                  encode: Encoder)
    requires encode(RequestMessage(name, params, Some(s.nextId))).Fail?
    ensures var r := SendRemoteRequest(s, name, params, Some(h), encode);
            && r.actions == []
            && s.nextId in r.session.pending && r.session.pending[s.nextId] == h
  {
  }

  /** What a completion is called with once a reply built from `(result, error)`
      reaches the session that sent the request. */
  function Resolution(result: Option<Json>, error: Option<RpcError>, fromJson: ErrorReader): (Option<Json>, Option<RpcError>)
  {
    match error
    case Some(e) => (None, Some(fromJson(ErrorObject(e).fields)))
    case None => if result.GetOr(JNull) == JNull then (None, None) else (result, None)
  }

  /** A request sent by one session is dispatched by any other session with
      the request's id as the reply id, and nothing else happens there. */
  lemma RequestDispatched(a: Session, b: Session, name: string, params: Option<map<string, Json>>,
                          call: CallHandler, fromJson: ErrorReader, encode: Encoder)
    requires call(name, params.GetOr(map[])) == Returned
    ensures DidReceiveData(b, Decoded(RequestMessage(name, params, Some(a.nextId))), call, fromJson, encode)
            == Step(b, [Dispatch(name, params.GetOr(map[]), FromInt(a.nextId))])
  {
    var o := RequestMessage(name, params, Some(a.nextId)).fields;
    assert VersionOk(o) && "method" in o;
    assert ResponseId(o) == FromInt(a.nextId);
    assert ReadRequest(o) == Success((name, params.GetOr(map[])));
  }

  /** The reply object built for request `id` is a response naming `id`, and
      the completion arguments read from it are its `Resolution`. */
  lemma ReplyReadBack(id: int, result: Option<Json>, error: Option<RpcError>, fromJson: ErrorReader)
    requires InIntRange(id)
    ensures var e := MakeResponse(FromInt(id), result, error).fields;
            && IsResponse(e) && AsInt(ResponseId(e)) == Some(id)
            && CompletionArguments(e, fromJson) == Resolution(result, error, fromJson)
  {
    IntRoundTrip(id);
  }

  /** A reply carrying the id of a request registered with `h`, built from
      `(result, error)`, calls `h` with the outcome and removes only its entry. */
  lemma ReplyResolves(a: Session, h: Callback, result: Option<Json>, error: Option<RpcError>,
                      call: CallHandler, fromJson: ErrorReader, encode: Encoder)
    requires Valid(a) && InIntRange(a.nextId)
    ensures var envelope := MakeResponse(FromInt(a.nextId), result, error);
            DidReceiveData(Register(a, h), Decoded(envelope), call, fromJson, encode)
            == Step(a.(nextId := a.nextId + 1),
                    [Invoke(h, Resolution(result, error, fromJson).0, Resolution(result, error, fromJson).1)])
  {
    var e := MakeResponse(FromInt(a.nextId), result, error).fields;
    ReplyReadBack(a.nextId, result, error, fromJson);
    var registered := Register(a, h);
    assert registered.pending - {a.nextId} == a.pending;
    ResponseResolves(registered, e, call, fromJson, encode);
  }

  /** Two sessions talking to each other: a request sent by `a` is dispatched
      by `b` with the request's id as the reply id; the reply `b`'s completion
      sends, delivered back to `a`, calls the registered completion and leaves
      `a`'s table as it was before the request. */
  lemma RequestAnsweredEndToEnd(a: Session, b: Session, name: string, params: Option<map<string, Json>>,
                                h: Callback, result: Option<Json>, error: Option<RpcError>,
                                call: CallHandler, fromJson: ErrorReader, encode: Encoder)
    requires Valid(a) && InIntRange(a.nextId) && Reliable(encode)
    requires call(name, params.GetOr(map[])) == Returned
    ensures var sent := SendRemoteRequest(a, name, params, Some(h), encode);
            var replyId := FromInt(a.nextId);
            && |sent.actions| == 1
            && DidReceiveData(b, Decoded(sent.actions[0].message), call, fromJson, encode)
               == Step(b, [Dispatch(name, params.GetOr(map[]), replyId)])
            && var reply := SendResponse(replyId, result, error, encode);
            && |reply| == 1
            && DidReceiveData(sent.session, Decoded(reply[0].message), call, fromJson, encode)
               == Step(a.(nextId := a.nextId + 1),
                       [Invoke(h, Resolution(result, error, fromJson).0, Resolution(result, error, fromJson).1)])
  {
    SendsOneRequest(a, OutboundCall(name, params, h), encode);
    RequestDispatched(a, b, name, params, call, fromJson, encode);
    assert SendResponse(FromInt(a.nextId), result, error, encode) == [SendBinary(MakeResponse(FromInt(a.nextId), result, error))];
    ReplyResolves(a, h, result, error, call, fromJson, encode);
  }
}
