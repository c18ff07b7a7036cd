/** Option and error-carrying results shared by every module of the model. */
module Outcomes {

  datatype Option<+T> = None | Some(value: T)

  /** The errors the preprocessor wrapper can raise. C++ exceptions become values. */
  datatype Error =
      /** `define` was given a name ending in ')' without any '(' */
    | NoMatchingParen
      /** `define` found a ',' where a parameter name should begin, at this 0-based column of the name */
    | UnexpectedComma(column: nat)
      /** `add_macro_function` found the name already defined */
    | MacroAlreadyDefined
      /**
       * a namespaced pragma handler was added while a top-level handler holds
       * the namespace's name; Clang asserts in debug builds and dereferences a
       * null namespace in release builds, so the program stops here
       */
    | NotANamespace
      /** a host callback raised; the payload is passed through unchanged */
    | HostError(message: string)

  datatype Result<+T> = Ok(value: T) | Err(error: Error)
}
