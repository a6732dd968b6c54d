/** The nullable values of the site's TypeScript (`number | null`, `string | null`,
    an absent `find` result) and of the optimizer script (`undefined` results). */
module Wrappers {
  datatype Option<+T> = None | Some(value: T)
}
