/** Optional values: Python's `None` next to a value, and operations that can fail. */
module Wrappers {

  datatype Option<+T> = None | Some(value: T)

  /** Python truthiness of an optional integer setting: `None` and `0` are both off. */
  predicate Enabled(setting: Option<int>) {
    setting.Some? && setting.value != 0
  }
}
