/** Values that may be missing, and handlers that may end in an EXIT alarm. */
module Outcomes {

  datatype Option<+T> = None | Some(value: T)

  /** The result of a handler: it carries on, or it reaches one of the EXIT alarms. */
  datatype Outcome<+T> = Go(value: T) | Exit(reason: string) {
    predicate IsFailure() { Exit? }

    function PropagateFailure<U>(): Outcome<U>
      requires Exit?
    {
      Exit(reason)
    }

    function Extract(): T
      requires Go?
    {
      value
    }
  }
}
