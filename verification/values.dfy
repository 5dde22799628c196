/** Small value types shared by the model: nullable values, the outcome of a
    call to the hosted datastore, and JavaScript's `||` on nullable strings. */
module Values {

  /** A value that may be absent (`null` / `undefined` in the application). */
  datatype Option<T> = None | Some(value: T) {

    /** The value, or `default` when absent. */
    function GetOr(default: T): T {
      match this
      case Some(v) => v
      case None => default
    }
  }

  /** What a datastore call hands back: either data or an error. */
  datatype Response<T> = Data(value: T) | Error(message: string)

  /** A nullable string is truthy when it is present and not empty. */
  predicate Truthy(v: Option<string>) {
    v.Some? && v.value != ""
  }

  /** `v || fallback` for a nullable string `v`. */
  function OrElse(v: Option<string>, fallback: string): (r: string)
    ensures Truthy(v) ==> r == v.value
    ensures !Truthy(v) ==> r == fallback
  {
    if Truthy(v) then v.value else fallback
  }

  /** `v || null` for a nullable string `v`: the empty string becomes null. */
  function NullIfEmpty(v: Option<string>): (r: Option<string>)
    ensures r.None? <==> !Truthy(v)
    ensures r.Some? ==> r == v
  {
    if Truthy(v) then v else None
  }

  /** Sending `v || null` and reading it back with `|| fallback` gives what
      `v || fallback` gives: nulling the empty string loses nothing. */
  lemma OrElseAfterNullIfEmpty(v: Option<string>, fallback: string)
    ensures OrElse(NullIfEmpty(v), fallback) == OrElse(v, fallback)
  {
  }
}
