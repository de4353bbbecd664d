/** internal/controller/errors.go: the one place a service error becomes a status code. */
module HttpErrors {
  import opened Wrappers
  import opened GoErrors
  import opened Http

  const NotFoundBody := "resource not found"

  /**
   * handleError: an error matching service.ErrNotFound gives 404 with the
   * body "resource not found"; every other error gives 500 and no body.
   */
  function HandleError(err: Error): (w: seq<Write>)
    ensures Status(w) == Some(if Is(err, NotFound) then StatusNotFound else StatusInternalServerError)
    ensures Bodies(w) == if Is(err, NotFound) then [Text(NotFoundBody)] else []
  {
    if Is(err, NotFound) then
      var w := [WriteHeader(StatusNotFound), WriteBody(Text(NotFoundBody))];
      assert Bodies(w[1..]) == [Text(NotFoundBody)] + Bodies(w[2..]);
      w
    else
      [WriteHeader(StatusInternalServerError)]
  }

  /** Every error gets exactly one of 404 and 500. */
  lemma HandleErrorTotal(err: Error)
    ensures Status(HandleError(err)) == Some(StatusNotFound) || Status(HandleError(err)) == Some(StatusInternalServerError)
    ensures Status(HandleError(err)) != Some(StatusBadRequest)
  {
  }
}
