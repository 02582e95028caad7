/** Option and Result types shared by the storage modules. */
module Wrappers {

  datatype Option<+T> = None | Some(value: T)

  /** The outcome of an operation that the source either resolves with a value or rejects. */
  datatype Result<+R, +E> = Success(value: R) | Failure(error: E)
}

/** A JavaScript argument as far as the storage code looks at it: `typeof v === 'string'` or not. */
module Js {

  /** `Str` is a string; `NonString` stands for any other value (undefined, null, a number, an object),
      `tag` telling such values apart. */
  datatype Value = Str(s: string) | NonString(tag: nat)
}
