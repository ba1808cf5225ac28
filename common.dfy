/** Small result types shared by the modules of the model. */
module Common {

  /** A value that may be absent: a missing dictionary key, a `None`. */
  datatype Option<+T> = None | Some(value: T)

  /** `d.get(key, default)` on a field that may be missing. */
  function GetOr<T>(o: Option<T>, default: T): (r: T)
    ensures o.Some? ==> r == o.value
    ensures o.None? ==> r == default
  {
    match o
    case Some(v) => v
    case None => default
  }

  /** What a call into code outside the model did: it returned a value,
      or it raised an exception whose `str()` is `error`. */
  datatype Call<+T> = Returned(value: T) | Raised(error: string)

  function Min(a: int, b: int): (m: int)
    ensures m <= a && m <= b
    ensures m == a || m == b
  {
    if a <= b then a else b
  }
}
