/** Option and Result, with the error conditions the document store raises. */
module Wrappers {

  datatype Option<+T> = None | Some(value: T)

  /** The exceptions of the store's pure logic, one constructor per raise site. */
  datatype Error =
    | InvalidKey     // `create_keys`: the assertion 'Key requires min depth 1'
    | PathIsNone     // `combine`: `'/' in k` on a `None` path (TypeError)
    | EmptyPath      // `combine`: `parts[-1]` on a path made only of slashes (IndexError)
    | NotAMapping    // `combine`: a value that `setdefault` found is not a dict: `setdefault` on it (AttributeError) or item assignment into it (TypeError)

  datatype Result<+T> = Ok(value: T) | Fail(error: Error)
}
