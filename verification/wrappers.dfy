/** Optional values. `None` stands for JavaScript's `undefined` (a glyph
    without a code point) or `NaN` (a failed `parseInt`). */
module Wrappers {

  datatype Option<+T> = None | Some(value: T)
}
