/** Optional values, shared by the game engine (a stored high score that may be
    missing) and the toast store (optional ids and partial toast fields). */
module Wrappers {

  /** A value that may be absent, as `undefined` is in TypeScript. */
  datatype Option<+T> = None | Some(value: T)
}
