/** Optional values (C# nullable references) and results that carry either a
    value or the exception a service operation throws. */
module Wrappers {

  datatype Option<+T> = None | Some(value: T)

  datatype Result<+T, +E> = Ok(value: T) | Err(error: E)
}
