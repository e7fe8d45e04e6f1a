/** Values shared by every part of the model: bytes, optional values, and the
    results of browser calls that may throw. */
module Basics {

  /** One element of a `Uint8Array`. */
  type Byte = x: int | 0 <= x < 256

  /** A value that may be absent (`null`/`undefined` in the source). */
  datatype Option<+T> = None | Some(value: T)

  /** The exceptions the modelled browser calls can throw. */
  datatype JsError =
    | InvalidCharacterError  // `atob` on a string that is not base64, `btoa` on a non-Latin-1 string
    | RangeError             // an `Int16Array` over a buffer whose byte length is odd
    | NotSupportedError      // `createBuffer` asked for zero channels or zero frames

  /** The outcome of a call that either returns a value or throws. */
  datatype Result<+T> = Ok(value: T) | Err(error: JsError)
}
