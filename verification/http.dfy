/**
 * What a handler does to its http.ResponseWriter, as the list of calls it
 * makes, in order. JSON encoding is not modelled byte by byte: a body write
 * records the value that was encoded.
 */
module Http {
  import opened Wrappers
  import opened Entity
  import opened Dto

  const StatusOK := 200
  const StatusCreated := 201
  const StatusBadRequest := 400
  const StatusNotFound := 404
  const StatusInternalServerError := 500

  datatype Payload =
    | Text(text: string)                 // w.Write([]byte(text))
    | JsonId(id: Uuid)                   // json.NewEncoder(w).Encode(id)
    | JsonReadList(items: seq<ReadDTO>)  // json.NewEncoder(w).Encode(items)

  datatype Write =
    | SetHeader(name: string, value: string)  // w.Header().Set(name, value)
    | WriteHeader(code: int)                  // w.WriteHeader(code)
    | WriteBody(payload: Payload)

  /**
   * The status the handler chose itself: the first WriteHeader, provided it
   * comes before any body write. None leaves the status to net/http.
   */
  function Status(w: seq<Write>): Option<int> {
    if w == [] then None
    else match w[0]
      case SetHeader(_, _) => Status(w[1..])
      case WriteHeader(code) => Some(code)
      case WriteBody(_) => None
  }

  /** Everything written to the body, in order. */
  function Bodies(w: seq<Write>): seq<Payload> {
    if w == [] then []
    else match w[0]
      case WriteBody(p) => [p] + Bodies(w[1..])
      case _ => Bodies(w[1..])
  }
}
