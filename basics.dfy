/** Small value types shared by the stores and the components. */
module Basics {

  /** An optional value: `undefined` / `null` in the source is `None`. */
  datatype Option<T> = None | Some(value: T)

  /** A grid coordinate `[x, y]`: column first, then row. */
  type Coord = (int, int)
}
