/** Rust's `Option<T>`: a value that may be absent. */
module Options {

  datatype Option<T> = None | Some(value: T)

  /** `opt.map_or(fallback, identity)`: the value when present, `fallback` when absent. */
  function MapOr<T>(opt: Option<T>, fallback: T): T {
    if opt.Some? then opt.value else fallback
  }
}
