/**
 * Go error values as a closed datatype: the two sentinels of the system, the
 * opaque errors that come from the database driver or the time package, and
 * fmt.Errorf("context: %w", err) wrapping.
 */
module GoErrors {
  import opened Wrappers

  /** A Go result pair (T, error); `value` is whatever the callee returned beside the error. */
  datatype Ret<T> = Ret(value: T, err: Option<Error>)

  datatype Error =
    | RepoNotFound                               // repository.ErrRepoNotFound
    | NotFound                                   // service.ErrNotFound
    | Failure(text: string)                      // a driver error, or fmt.Errorf without %w
    | TimeParseError(layout: string, value: string)  // *time.ParseError
    | Wrapped(context: string, inner: Error)     // fmt.Errorf(context + ": %w", inner)

  /** errors.Is(err, target): err is target, or unwraps to it. */
  predicate Is(err: Error, target: Error) {
    err == target || (err.Wrapped? && Is(err.inner, target))
  }

  /** Wrapping never hides a sentinel and never creates one. */
  lemma {:induction false} WrappedIs(context: string, err: Error, target: Error)
    requires !target.Wrapped?
    ensures Is(Wrapped(context, err), target) <==> Is(err, target)
  {
  }
}
