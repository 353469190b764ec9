/** Python's `None`-or-value and raise-or-return, as values. */
module Outcomes {

  /** `Optional[T]`: `None` or a value. */
  datatype Option<+T> = None | Some(value: T)

  /** The ways the modelled scripts fail (an `assert`, a `raise`, a dictionary `KeyError`,
      or `next()` running out of candidates). */
  datatype Error =
    | DuplicatePinNumbers                            // assertion in Package.group_pins
    | TooManyPins(count: nat, maxPins: int)          // assertion in Package.group_pins
    | UnevenGroups(count: nat, groups: nat)          // assertion in Package.group_pins
    | DuplicateProperty(key: string)                 // RuntimeError "Got >1 matches for key"
    | PinUnitCount(count: nat)                       // RuntimeError "pin_units has length"
    | UnknownFootprint(footprint: Option<string>)    // KeyError from PACKAGE_REGISTRY[...]
    | NoSuchSymbol(name: string)                     // StopIteration from next(...)

  /** A returned value, or the error that was raised instead. */
  datatype Result<+T> = Ok(value: T) | Err(error: Error)
}
