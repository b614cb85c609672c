/** The observable effects of one session step, in the order they happen.

    Socket writes, the close of the socket, calls into the application's call
    handler and invocations of completion closures are not performed here: each
    step returns them as a sequence of actions. */
module Trace {
  import opened Wrappers
  import opened JsonValues
  import opened RpcErrors

  /** An opaque reference to a completion closure the application handed to
      `sendRemoteRequest`. Two entries of the pending table may hold the same one. */
  datatype Callback = Callback(ref: nat)

  datatype Action =
      /** One JSON object serialised and written to the socket as a final binary frame. */
    | SendBinary(message: Json)
      /** A text frame written to the socket. */
    | SendText(text: string)
      /** The socket is closed. */
    | CloseSocket
      /** `didReceiveCall(name, params, completion)`; the completion, when the
          application calls it, replies with `replyId`. */
    | Dispatch(name: string, params: map<string, Json>, replyId: Json)
      /** A completion closure is called with `(result, error)`. */
    | Invoke(callback: Callback, result: Option<Json>, error: Option<RpcError>)
}
