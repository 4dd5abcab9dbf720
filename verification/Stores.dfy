/** What the three buffers have in common: contents, the two ways of being closed,
    and the sections that only take elements out. */
module Stores {
  import opened Common

  datatype Store<T> = Store(items: seq<T>, closeWrite: bool, closeErr: Option<Error>)

  function Empty<T>(): Store<T> { Store([], false, None) }

  /** Why a write is refused, if it is. */
  function WriteRefusal<T>(s: Store<T>): Option<Error> {
    if s.closeErr.Some? then Some(Wrapped(WRITE_CLOSED, s.closeErr.value))
    else if s.closeWrite then Some(Wrapped(WRITE_CLOSED, ErrClosedPipe))
    else None
  }

  /** One pass of a reader that can take up to k elements; done is the error it
      reports at the end of the stream. */
  function Take<T>(s: Store<T>, k: nat, done: Error): (Store<T>, Outcome<seq<T>>) {
    if s.closeErr.Some? then (s, Failed(Wrapped(READ_CLOSED, s.closeErr.value)))
    else if s.items == [] then (s, if s.closeWrite then Failed(done) else Waits)
    else var n := Min(k, |s.items|); (s.(items := s.items[n..]), Returned(s.items[..n]))
  }

  function Discard<T>(s: Store<T>, n: nat): (Store<T>, Outcome<()>) {
    if s.closeErr.Some? then (s, Failed(Wrapped(SKIP_CLOSED, s.closeErr.value)))
    else (s.(items := s.items[Min(n, |s.items|)..]), Returned(()))
  }

  function CloseWrite<T>(s: Store<T>): Store<T> { s.(closeWrite := true) }

  /** The first error sticks. */
  function CloseWithError<T>(s: Store<T>, err: Option<Error>): Store<T> {
    if s.closeErr.Some? then s
    else s.(closeErr := Some(err.GetOr(ErrClosedPipe)), closeWrite := true)
  }

  function Reset<T>(s: Store<T>): Store<T> { s.(items := []) }
}
