/** What `GreyNoise._request` sends and what comes back, with the transport itself abstracted away. */
module Http {
  import opened Wrappers
  import opened Text

  /** A scalar JSON value of a reply field, as `response.json()` decodes it. */
  datatype Json = JNull | JBool(b: bool) | JInt(i: int) | JStr(s: string)

  /** A JSON object, as a Python dict. */
  type Record = map<string, Json>

  /** `str()` of a decoded JSON scalar, as `str.format` renders it. */
  function PyStr(v: Json): string {
    match v
    case JNull => "None"
    case JBool(b) => if b then "True" else "False"
    case JInt(i) => IntToString(i)
    case JStr(s) => s
  }

  /**
   * One GET request: the URL, the headers, the timeout in seconds, the query
   * parameters and the `ips` list of the JSON body (`None` when there is no body).
   */
  datatype HttpRequest = HttpRequest(
    url: string,
    headers: map<string, string>,
    timeout: int,
    params: map<string, int>,
    ips: Option<seq<string>>)

  /** The server's answer to one request: status code, raw content and decoded JSON payload. */
  datatype Reply<T> = Reply(status: int, content: string, payload: T)

  /** `status_code in range(200, 299)`: the range stops before 299. */
  predicate StatusOk(status: int) {
    200 <= status < 299
  }
}
