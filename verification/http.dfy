/** What the handlers share: the query string, the statuses they answer
    with, and the mapping of store errors to statuses. */
module Http {
  import opened Outcomes
  import opened Snapshot

  /** A handler's answer: a 200 with a JSON body, or an error status. */
  datatype Reply<+T> = Success(body: T) | BadRequest | NotFoundReply | InternalError {
    function Status(): int {
      match this
      case Success(_) => 200
      case BadRequest => 400
      case NotFoundReply => 404
      case InternalError => 500
    }
  }

  /** `r.URL.Query()`, first value per key. */
  type Query = map<string, string>

  /** `Query().Get(key)`: the empty string for an absent key. */
  function QueryGet(q: Query, key: string): (v: string)
    ensures key !in q ==> v == ""
    ensures key in q ==> v == q[key]
  {
    if key in q then q[key] else ""
  }

  /** The error switch of every handler: `ErrNotFound` is a 404 and any
      other store error a 500; a value is a 200 carrying it. */
  function ReplyOf<T>(r: Result<T, StoreError>): (reply: Reply<T>)
    ensures reply.Status() == 200 <==> r.Ok?
    ensures r.Ok? ==> reply == Success(r.value)
    ensures reply.Status() == 404 <==> r == Err(NotFound)
    ensures reply.Status() == 500 <==> r.Err? && r.error.LoadFailed?
  {
    match r
    case Ok(v) => Success(v)
    case Err(NotFound) => NotFoundReply
    case Err(LoadFailed(_)) => InternalError
  }
}
