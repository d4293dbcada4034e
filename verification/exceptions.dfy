/** The JavaScript exceptions the modelled code can throw, reduced to what a
    caller observes: the error's constructor and its `message`. Messages
    follow the wording of the V8 engine that runs the servers and the build. */
module Exceptions {

  datatype Exception =
    | TypeError(message: string)
    | RangeError(message: string)
    /** `new Error(...)`, and the errors `fs` and `JSON.parse` reject with. */
    | Error(message: string)

  /** `Object.keys` or `Object.entries` applied to `undefined` or `null`. */
  const ConvertNullish: Exception := TypeError("Cannot convert undefined or null to object")

  /** A recursion that never bottoms out exhausts the call stack. */
  const StackOverflow: Exception := RangeError("Maximum call stack size exceeded")

  /** `x.property` where `x` is `undefined` (isNull false) or `null` (isNull true). */
  function ReadOfNullish(isNull: bool, property: string): Exception
  {
    TypeError("Cannot read properties of " + (if isNull then "null" else "undefined")
              + " (reading '" + property + "')")
  }

  /** `const { property } = args` where `args` is `undefined`. */
  function DestructureUndefined(property: string): Exception
  {
    TypeError("Cannot destructure property '" + property + "' of 'args' as it is undefined.")
  }
}
