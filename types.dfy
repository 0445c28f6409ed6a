/** An optional value, standing for JavaScript's `null` / `undefined`, and the outcome of a
    call that may throw. */
module Wrappers {

  datatype Option<+T> = None | Some(value: T) {

    /** Returns the value, or `default` when there is none (JavaScript's `x || default`
        for values that are never falsy). */
    function GetOr(default: T): T
    {
      match this
      case Some(v) => v
      case None => default
    }
  }

  /** An operation that either returns a value or throws (a rejected promise). */
  datatype Reply<+T> = Returned(value: T) | Threw
}

/** The records and enumerations of types.ts. */
module Types {
  import opened Wrappers

  /** The three screens of the calendar. */
  datatype AppState = Onboarding | Calendar | ViewingCard

  /** One postcard. Only `imageUrl` is always a string: the four text fields are copied
      from the model's JSON answer without validation, so at run time any of them may be
      `undefined`, written here as `None`. */
  datatype CardContent = CardContent(
    imageUrl: string,
    quoteJp: Option<string>,
    quoteZh: Option<string>,
    source: Option<string>,
    workTitle: Option<string>)
}
