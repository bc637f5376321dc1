/** Optional values: used where the extension may find nothing (a URL that does
    not parse, a rule id that was not given). */
module Wrappers {
  datatype Option<+T> = None | Some(value: T)
}
