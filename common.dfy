// Shared result types.  Meteor signals failure by raising Python exceptions; the model
// returns them as values so that every error path stays visible.

module Common {

  datatype Option<T> = None | Some(value: T)
  {
    function GetOr(default: T): (r: T)
      ensures this.Some? ==> r == this.value
      ensures this.None? ==> r == default
    {
      match this
      case None => default
      case Some(v) => v
    }
  }

  /** A computed value, or the exception (its Python class and message) that aborts it. */
  datatype Result<T> = Ok(value: T) | Err(error: string)

  /** The outcome of a step that only has effects: it ran to the end or raised. */
  datatype Outcome = Pass | Fail(error: string)
}
