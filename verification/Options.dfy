/** Optional values, and Python's truth test on an optional string. */
module Options {
  datatype Option<+T> = None | Some(value: T)

  /** `if s:` in Python for `s: Optional[str]`: neither None nor the empty string. */
  predicate Truthy(s: Option<string>) {
    s.Some? && s.value != ""
  }
}
