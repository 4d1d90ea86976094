/** Option and Result, and the failures the decoder can raise. */
module Wrappers {

  datatype Option<+T> = None | Some(value: T)

  datatype Result<+T, +E> = Ok(value: T) | Err(error: E)

  /** What goes wrong while decoding, in the terms the receiver's messages use. */
  datatype DecodeError =
    /** A navigation word was indexed past the end of the word list. */
    | WordMissing
    /** The indexed repeated field `name`_`index` is absent from a decoded message. */
    | FieldMissing(name: string, index: nat)
    /** A field value outside the field's allowed set. */
    | InvalidValue(name: string, value: nat)
    /** An attribute was read before the object assigned it. */
    | AttributeUnset(name: string)
    /** A local variable was updated before anything assigned it. */
    | LocalUnset(name: string)
}
