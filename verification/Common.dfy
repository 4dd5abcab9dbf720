/** Vocabulary shared by every module: optional values, the errors of the buffer
    package, the outcome of one critical section, and "the last n elements". */
module Common {

  datatype Option<+T> = None | Some(value: T) {
    function GetOr(default: T): T { if Some? then value else default }
  }

  /** Errors returned by the buffer package. `Wrapped` is an error built with a
      context string around its cause. */
  datatype Error =
    | ErrClosedPipe
    | ErrEOF
    | ErrIteratorDone
    | ErrCustom(code: int)
    | Wrapped(context: string, cause: Error)

  const READ_CLOSED := "buffer: read from closed buffer"
  const WRITE_CLOSED := "buffer: write to closed buffer"
  const SKIP_CLOSED := "buffer: skip from closed buffer"

  /** How one critical section of a blocking operation ends: the operation
      returns, it fails, or it gives the lock back in order to wait. */
  datatype Outcome<+A> = Returned(value: A) | Failed(error: Error) | Waits

  datatype Result<+T, +E> = Ok(value: T) | Err(error: E) {
    predicate IsFailure() { Err? }

    function PropagateFailure<U>(): Result<U, E>
      requires Err?
    {
      Err(error)
    }

    function Extract(): T
      requires Ok?
    {
      value
    }
  }

  function Min(a: int, b: int): int { if a <= b then a else b }

  /** The sliding window of the most recent n elements. */
  function LastN<T>(s: seq<T>, n: nat): seq<T> {
    if |s| <= n then s else s[|s| - n..]
  }

  /** The window of a string lies in any suffix that is long enough. */
  lemma LastNOfSuffix<T>(a: seq<T>, b: seq<T>, n: nat)
    requires a == [] || n <= |b|
    ensures LastN(a + b, n) == LastN(b, n)
  {
    if a == [] {
      assert a + b == b;
    } else {
      assert (a + b)[|a + b| - n..] == b[|b| - n..];
    }
  }

  /** Windowing early loses nothing: what was cut off is older than the window. */
  lemma LastNAbsorbs<T>(s: seq<T>, p: seq<T>, n: nat)
    ensures LastN(LastN(s, n) + p, n) == LastN(s + p, n)
  {
    var w := LastN(s, n);
    assert s + p == s[..|s| - |w|] + (w + p);
    LastNOfSuffix(s[..|s| - |w|], w + p, n);
  }

  /** Quotient and remainder are unique. */
  lemma ModIs(x: nat, q: nat, r: nat, n: nat)
    requires 0 < n && r < n && x == q * n + r
    ensures x % n == r
  {
    var d := x / n - q;
    assert d * n == r - x % n by { Distribute(x / n, q, n); }
    if d >= 1 { Multiple(d, n); } else if d <= -1 { Multiple(-d, n); }
  }

  lemma Distribute(a: int, b: int, n: int)
    ensures (a - b) * n == a * n - b * n
  {
  }

  lemma Multiple(d: int, n: nat)
    requires d >= 1
    ensures d * n >= n && (-d) * n == -(d * n)
  {
  }
}
