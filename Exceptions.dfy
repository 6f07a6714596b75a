/**
 * The errors the profile code raises, as values instead of exception classes
 * (src/exceptions/RetroTinkProfileException.ts and the built-in errors it meets).
 */
module Exceptions {
  import opened DataTypes

  datatype ProfileError =
    /** InvalidProfileFormatError, carrying the header text that was decoded. */
    | InvalidProfileFormat(header: string)
    /** SettingNotSupportedError for a name that is not in the schema. */
    | SettingNotSupported(key: string)
    /** SettingTypeError: the input's shape does not fit the setting's type. */
    | SettingType(name: string, dtype: DataType, input: Primitive)
    /** SettingValidationError: a number outside the byte range of the setting. */
    | SettingValidation(name: string, value: int)
    /** The plain `Error('Not Implemented Yet')` for integer codecs wider than one byte. */
    | NotImplementedYet
    /** Reading byte 0 of an empty buffer, where JavaScript yields `undefined`. */
    | UndefinedByte
    /** SettingDeserializationError wrapping whatever went wrong underneath. */
    | SettingDeserialization(cause: ProfileError)
    /** The failure of `JSON.parse` or of flattening the parsed tree. */
    | MalformedJson
    /** The RangeError of `Uint8Array.prototype.set` when the target is too short. */
    | RangeError
    /** The strict-mode TypeError of assigning a property on a primitive value. */
    | PropertyOnPrimitive

  datatype Option<+T> = None | Some(value: T)

  datatype Result<+T> = Ok(value: T) | Err(error: ProfileError)

  /** The result of an operation that returns nothing or throws. */
  datatype Outcome = Pass | Fail(error: ProfileError)
}
