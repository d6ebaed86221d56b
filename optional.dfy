/** A value that may be absent: JavaScript's `null`/`undefined` next to a present value. */
module Optional {

  datatype Option<T> = None | Some(value: T) {

    /** The `x ?? d` operator: the value when present, otherwise the default. */
    function GetOr(default: T): (r: T)
      ensures Some? ==> r == value
      ensures None? ==> r == default
    {
      match this
      case Some(v) => v
      case None => default
    }

    /** `a ?? b` where both sides may be absent. */
    function OrElse(other: Option<T>): (r: Option<T>)
      ensures Some? ==> r == this
      ensures None? ==> r == other
    {
      if Some? then this else other
    }
  }
}

/** What an awaited backend call gave the caller: it threw, or it returned a body that may be null. */
module Remote {
  import opened Optional

  datatype Outcome<T> = Failed | Returned(body: Option<T>)
}
