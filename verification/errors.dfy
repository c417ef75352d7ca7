/** Go error values of the backend (backend/utils/errors/errors.go).
    A Go `error` interface value is `Option<Error>`: `None` is nil. */
module Errors {
  import opened Wrappers
  import Text

  datatype Error =
    | Simple(message: string)
      /** a non-nil `*tempError`: the wrapped error (possibly nil) and its `temp` flag */
    | Temporary(inner: Option<Error>, temp: bool)
      /** a nil `*tempError` stored in a non-nil interface value */
    | NilTemporary
      /** the result of `errors.Join` over its non-nil arguments */
    | Joined(errs: seq<Error>)

  const ErrNotImplemented := Simple("not implemented")
  const ErrAbort := Simple("aborted")
  const ErrShutdown := Simple("shutdown")
  const ErrNotFound := Simple("not found")
  const ErrCallerError := Simple("client made an error")
  const ErrReceiverError := Simple("receiver made an error")
  const ErrInvalid := Simple("invalid")

  /** `err.Error()`; a joined error lists its parts' messages separated by newlines. */
  function Message(e: Error): string
  {
    match e
    case Simple(m) => m
    case Temporary(inner, _) =>
      (match inner
       case None => ""
       case Some(x) => Message(x))
    case NilTemporary => ""
    case Joined(errs) => JoinLines(seq(|errs|, i requires 0 <= i < |errs| => Message(errs[i])))
  }

  function JoinLines(lines: seq<string>): string
  {
    if lines == [] then ""
    else if |lines| == 1 then lines[0]
    else lines[0] + "\n" + JoinLines(lines[1..])
  }

  /** fmt's `%v` of an error value: "<nil>" for nil. */
  function Format(e: Option<Error>): string {
    match e
    case None => "<nil>"
    case Some(x) => Message(x)
  }

  /** The `TemporaryError` interface is implemented exactly by `*tempError`, nil or not. */
  predicate ImplementsTemporary(e: Error) {
    e.Temporary? || e.NilTemporary?
  }

  /** IsTemporary(err): the `temp` flag of a `*tempError`, false for a nil one and for every other error. */
  function IsTemporary(err: Option<Error>): (r: bool)
    ensures r ==> err.Some? && ImplementsTemporary(err.value)
    ensures err.Some? && err.value.Temporary? ==> (r <==> err.value.temp)
  {
    match err
    case Some(Temporary(_, t)) => t
    case _ => false
  }

  /** CreateTemporaryError(err): nil stays nil; otherwise a temporary wrapper with the same message. */
  function CreateTemporaryError(err: Option<Error>): (r: Option<Error>)
    ensures err.None? <==> r.None?
    ensures err.Some? ==> IsTemporary(r) && Message(r.value) == Message(err.value)
  {
    match err
    case None => None
    case Some(_) => Some(Temporary(err, true))
  }

  /** `errors.Join(acc, e)` for a non-nil `e`: always a fresh join holding the non-nil arguments. */
  function Join(acc: Option<Error>, e: Error): (r: Error)
    ensures r.Joined? && |r.errs| >= 1 && r.errs[|r.errs| - 1] == e
  {
    match acc
    case None => Joined([e])
    case Some(a) => Joined([a, e])
  }
}
