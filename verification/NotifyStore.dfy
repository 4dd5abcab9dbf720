/** What the two channel-notified buffers, `Buffer` and `RingBuffer`, mean: their
    critical sections as functions on abstract stores. The classes are proved
    against these functions and `NotifyProtocol` interleaves them. */
module NotifyStore {
  import opened Common
  import opened Stores

  /** A `Buffer` grows without bound; a `RingBuffer` keeps a window of cap elements. */
  datatype Kind = Growable | Ring(cap: nat)

  /** A store with its channel. token: a notification lies in the channel's one slot.
      The channel is closed exactly when the write side is. */
  datatype Notified<T> = Notified(store: Store<T>, token: bool)

  function Append<T>(kind: Kind, items: seq<T>, p: seq<T>): seq<T> {
    match kind
    case Growable => items + p
    case Ring(cap) => LastN(items + p, cap)
  }

  function Appended<T>(kind: Kind, s: Store<T>, p: seq<T>): Store<T> {
    s.(items := Append(kind, s.items, p))
  }

  /** Only `Buffer.Write` notifies; `RingBuffer.Write` leaves the channel alone. */
  function Write<T>(kind: Kind, s: Notified<T>, p: seq<T>): (Notified<T>, Outcome<nat>) {
    if WriteRefusal(s.store).Some? then (s, Failed(WriteRefusal(s.store).value))
    else (Notified(Appended(kind, s.store, p), s.token || kind.Growable?), Returned(|p|))
  }

  function Add<T>(kind: Kind, s: Notified<T>, t: T): (Notified<T>, Outcome<()>) {
    if WriteRefusal(s.store).Some? then (s, Failed(WriteRefusal(s.store).value))
    else (Notified(Appended(kind, s.store, [t]), true), Returned(()))
  }

  /** `Buffer` drops its contents when it fails, `RingBuffer` keeps them. */
  function CloseWithError<T>(kind: Kind, s: Store<T>, err: Option<Error>): Store<T> {
    if s.closeErr.None? && kind.Growable? then Reset(Stores.CloseWithError(s, err))
    else Stores.CloseWithError(s, err)
  }

  function Adds<T>(kind: Kind, s: Notified<T>, p: seq<T>): Notified<T>
    decreases |p|
  {
    if p == [] then s else Adds(kind, Add(kind, s, p[0]).0, p[1..])
  }

  /** `Write(p)` leaves the store that `Add` on each element of p leaves, in any state
      of either buffer, closed ones included; they differ in notification only. */
  lemma {:induction false} WriteIsAdds<T>(kind: Kind, s: Notified<T>, p: seq<T>)
    requires kind.Ring? ==> |s.store.items| <= kind.cap
    ensures Write(kind, s, p).0.store == Adds(kind, s, p).store
    ensures Adds(kind, s, p).token <==> s.token || (WriteRefusal(s.store).None? && p != [])
    decreases |p|
  {
    if p == [] {
      assert s.store.items + p == s.store.items;
    } else {
      WriteIsAdds(kind, Add(kind, s, p[0]).0, p[1..]);
      assert s.store.items + p == s.store.items + [p[0]] + p[1..];
      if kind.Ring? { LastNAbsorbs(s.store.items + [p[0]], p[1..], kind.cap); }
    }
  }
}
