/** Query-string parameters of an HTTP request, as the list views read them
    with `request.GET.get(name)` or `request.GET.get(name, default)`. */
module Request {

  /** A parameter that may be absent from the query string. */
  datatype Option<+T> = None | Some(value: T)

  /** `request.GET.get(name, default)`: the given value, or the default when
      the parameter is absent. */
  function GetOr(p: Option<string>, default: string): (r: string)
    ensures p.Some? ==> r == p.value
    ensures p.None? ==> r == default
  {
    match p
    case Some(v) => v
    case None => default
  }

  /** Python truthiness of `request.GET.get('q')`: `if q:` holds exactly when
      the parameter is present and not the empty string. */
  predicate IsSet(q: Option<string>) {
    q.Some? && q.value != ""
  }
}
