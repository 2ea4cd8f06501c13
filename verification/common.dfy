/** Shared vocabulary of the matching engine: optional values, the errors the
    engine reports to its caller, and the outcome of a step that may fail after
    having already changed its state. */
module Common {

  /** The asset every market is quoted in and on-ramps credit. */
  const BaseCurrency: string := "INR"

  datatype Option<+T> = None | Some(value: T)

  /** A number read from a command string: `Number(s)` is either NaN or a value.
      Values are integers in minor units. */
  datatype Num = NaN | Finite(value: int)

  /** The errors the engine raises; each becomes an ERROR reply. */
  datatype Error =
    | OrderbookNotFound(market: string)
    | InvalidMarket(market: string)
    | InvalidPriceOrQuantity
    | UserNotFound(user: string)
    | InsufficientBalance(asset: string)
    | OrderNotFound
    | NotOnBookSide(orderId: string)
    | InvalidOnRampAmount
    | OrderbookExists(ticker: string)

  /** Result of a computation that either yields a value or fails without
      changing anything. */
  datatype Result<+T> = Ok(value: T) | Err(error: Error)

  /** Result of a step over a state `S` that either completes, or throws after
      possibly having changed part of the state (the JavaScript code mutates in
      place and only then throws). Both alternatives carry the state left
      behind. */
  datatype Outcome<S> = Done(state: S) | Failed(state: S, error: Error)
}
