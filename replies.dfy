/** What a service call ends with, as the HTTP layer sees it. */
module Replies {
  import opened Values

  datatype Reply =
    | Ok(body: Val)            // the value returned to the endpoint
    | NotFound(detail: string) // HTTPException 404
    | BadRequest               // HTTPException 400: the repository raised
    | Crash                    // an exception nobody catches (a 500): a RedisError or a TypeError
}
