/** The JSON-RPC error taxonomy of the session engine.

    `JSONRPCError` is defined in a source file that is not part of this model;
    it is a record of an integer code, a message and optional data, and its
    ParseError, InvalidRequest and InternalError constructors are assumed to
    carry the codes and messages of section 5.1 of the JSON-RPC 2.0
    specification. */
module RpcErrors {
  import opened Wrappers
  import opened JsonValues

  datatype RpcError = RpcError(code: int, message: string, data: Option<Json>)

  /** Codes of section 5.1 of the JSON-RPC 2.0 specification, assumed for the
      standard kinds; the message strings below are assumed likewise. */
  const ParseErrorCode: int := -32700
  const InvalidRequestCode: int := -32600
  const InternalErrorCode: int := -32603

  /** The engine's own two codes, outside the range that section 5.1 of the
      JSON-RPC 2.0 specification reserves for pre-defined errors. */
  const UnhandledCode: int := 1
  const EncodeFailedCode: int := 2

  predicate IsReservedCode(code: int)
  {
    -32768 <= code <= -32000
  }

  function ParseError(detail: string): (e: RpcError)
    ensures e.code == ParseErrorCode && IsReservedCode(e.code)
    ensures e.data == Some(JString(detail))
  {
    RpcError(ParseErrorCode, "Parse error", Some(JString(detail)))
  }

  function InvalidRequest(detail: string): (e: RpcError)
    ensures e.code == InvalidRequestCode && IsReservedCode(e.code)
    ensures e.data == Some(JString(detail))
  {
    RpcError(InvalidRequestCode, "Invalid Request", Some(JString(detail)))
  }

  function InternalError(detail: string): (e: RpcError)
    ensures e.code == InternalErrorCode && IsReservedCode(e.code)
    ensures e.data == Some(JString(detail))
  {
    RpcError(InternalErrorCode, "Internal error", Some(JString(detail)))
  }

  /** Something thrown inside the inbound pipeline: either a `JSONRPCError`
      or any other Swift `Error`, known here only by its description. */
  datatype Thrown = Rpc(error: RpcError) | Unhandled(description: string)

  /** The error the inbound pipeline reports for a failure: a `JSONRPCError`
      is reported as it is, anything else becomes the local code 1. */
  function ReportedError(f: Thrown): (e: RpcError)
    ensures f.Rpc? ==> e == f.error
    ensures f.Unhandled? ==> e.code == UnhandledCode && !IsReservedCode(e.code)
    ensures f.Unhandled? ==> e.message == "Unhandled error encountered during call"
    ensures f.Unhandled? ==> e.data == Some(JString(f.description))
  {
    match f
    case Rpc(err) => err
    case Unhandled(description) =>
      RpcError(UnhandledCode, "Unhandled error encountered during call", Some(JString(description)))
  }

  /** The error put in the second envelope when the first could not be encoded or sent. */
  function EncodeFailed(reason: string): (e: RpcError)
    ensures e.code == EncodeFailedCode && !IsReservedCode(e.code)
    ensures e.message == "Could not encode response"
    ensures e.data == Some(JString(reason))
  {
    RpcError(EncodeFailedCode, "Could not encode response", Some(JString(reason)))
  }
}
