/** The capacity-1 notification channel of the growable and the ring buffer. */
module Notify {

  /** Sending on or closing a closed channel panics, hence the preconditions: a
      class that verifies never does either. */
  class Channel {
    var token: bool
    var closed: bool

    constructor ()
      ensures !token && !closed
    {
      token, closed := false, false;
    }

    /** The non-blocking send: a no-op when the slot is taken. */
    method TrySend()
      requires !closed
      modifies this`token
      ensures token
    {
      if !token {
        token := true;
      }
    }

    method Close()
      requires !closed
      modifies this`closed
      ensures closed
    {
      closed := true;
    }
  }
}
