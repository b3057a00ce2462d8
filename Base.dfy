/** Shared vocabulary of the booking core: instants, identifiers, optional values. */
module Base {

  /** An instant, in milliseconds since the epoch (the value of a JavaScript `Date`). */
  type Time = int

  /** The width of one bookable slot: 30 minutes, in milliseconds. */
  const SLOT: int := 30 * 60 * 1000

  /** Identifiers of users (from the session) and of remote calendar events. */
  type UserId = string
  type EventId = string

  /** Primary keys of the block and reservation tables, allocated by the database. */
  type BlockId = nat
  type ReservationId = nat

  /** A value that may be missing (`null` / `undefined`). */
  datatype Option<T> = None | Some(value: T)

  /** JavaScript truthiness of an optional string: present and not the empty string. */
  predicate Truthy(s: Option<string>)
  {
    s.Some? && s.value != ""
  }

  /** The value at `k`, if `m` has one (a lookup by primary key). */
  function Lookup<K, V>(m: map<K, V>, k: K): (r: Option<V>)
    ensures r.Some? <==> k in m
    ensures r.Some? ==> r.value == m[k]
  {
    if k in m then Some(m[k]) else None
  }
}
