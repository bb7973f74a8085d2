/** Shared vocabulary: identities, optional values and error-carrying results. */
module Common {

  /** A document identity (a MongoDB ObjectId). Identities are only ever compared
      for equality and freshly allocated, so a natural number stands for one. */
  type Id = nat

  /** A value that may be absent (JavaScript `undefined` / `null`). */
  datatype Option<+T> = None | Some(value: T)

  /** The outcome of a request handler: a value, or the reason it was refused. */
  datatype Result<+T, +E> = Ok(value: T) | Err(error: E)

  /** The value an update writes to a field: the given one, or the stored one
      when the update leaves the field out. */
  function Overlay<T>(given: Option<T>, stored: T): (v: T)
    ensures given.Some? ==> v == given.value
    ensures given.None? ==> v == stored
  {
    if given.Some? then given.value else stored
  }

  /** `Overlay` for an optional field, which the update sets to what it gives. */
  function OverlayOption<T>(given: Option<T>, stored: Option<T>): (v: Option<T>)
    ensures given.Some? ==> v == given
    ensures given.None? ==> v == stored
  {
    if given.Some? then given else stored
  }

  /** JavaScript truthiness of an optional string: present and not "". */
  predicate Truthy(s: Option<string>)
  {
    s.Some? && s.value != ""
  }
}
