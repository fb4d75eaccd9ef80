/** Optional values, and the largest integer that JSON carries exactly. */
module Basics {
  datatype Option<+T> = None | Some(value: T)

  const MAX_SAFE_INTEGER := 9007199254740991
}
