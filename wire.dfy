/**
 * The five reply kinds of the wire protocol, the fixed reply texts of the
 * dispatcher, and the choice of reply kind from a storage helper's outcome.
 */
module Wire {
  import opened Wrappers

  /** One reply written to the client connection. */
  datatype Reply =
    | Status(text: string)   // simple string reply
    | Bulk(text: string)     // bulk string reply
    | Int(n: int)            // integer reply
    | Null                   // null bulk reply
    | Error(msg: string)     // error reply

  const Pong: string := "PONG"
  const Ok: string := "OK"
  const WrongArgs: string := "Wrong number of arguments"
  const UnknownCommand: string := "Unknown command"

  /**
   * The reply to a statement whose only result is success or failure:
   * the status `ok` when it succeeded, its error text when it failed.
   */
  function StatusReply(err: Option<string>, ok: string): (r: Reply)
    ensures r.Status? <==> err.None?
    ensures r.Status? ==> r.text == ok
    ensures err.Some? ==> r == Error(err.value)
  {
    match err
    case None => Status(ok)
    case Some(e) => Error(e)
  }

  /**
   * The reply to a lookup: a bulk reply of the value, a null reply when the
   * key is absent, an error reply only when the lookup itself failed.
   */
  function ValueReply(got: Result<Option<string>>): (r: Reply)
    ensures r.Error? <==> got.Err?
    ensures r.Null? <==> got == Result.Ok(None)
    ensures got.Err? ==> r.msg == got.error
    ensures got.Ok? && got.value.Some? ==> r == Bulk(got.value.value)
  {
    match got
    case Err(e) => Error(e)
    case Ok(None) => Null
    case Ok(Some(v)) => Bulk(v)
  }
}
