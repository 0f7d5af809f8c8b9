/** Values shared by every layer of the client: the parsed IRC message, the
    failures the client can raise, and the Option/Result wrappers that stand in
    for Python's None and exceptions. */
module Base {

  datatype Option<+T> = None | Some(value: T)

  /** An IRC message as `parse_message` builds it (pyrcmemcached.py:20-21). */
  datatype Message = Message(
    tags: seq<string>,
    prefix: Option<string>,
    command: string,
    params: seq<string>)

  /** The ways an operation of the client can fail. Each stands for an exception
      the Python code raises (or would raise: several of the names it uses are
      never defined, so the real failure is a NameError with the same effect). */
  datatype Error =
    | Disconnected                     // sendLine with no connection
    | NoSocket                         // a receive with no connection
    | ConnectionClosed                 // the peer closed the stream
    | NoMessage                        // a blocking read found nothing
    | Malformed(line: string)          // a line parse_message rejects
    | UnsupportedServer                // 005 does not list METADATA
    | ProtocolViolation(reply: Message) // a reply the client did not expect
    | InvalidKey(key: string)          // a key outside [A-Za-z0-9_.:]
    | BadValue(payload: string)        // a stored payload that cannot be decoded
    | BadAddress(address: string)      // a server address without a usable port
    | NoServer                         // an empty server list

  datatype Result<+T> = Success(value: T) | Failure(error: Error) {
    predicate IsFailure() { Failure? }
    function PropagateFailure<U>(): Result<U>
      requires Failure?
    {
      Failure(error)
    }
    function Extract(): T
      requires Success?
    {
      value
    }
  }
}
