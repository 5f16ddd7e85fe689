/** Optional values: Rust's `Option<T>` and TypeScript's `T | null`. */
module Optional {

  datatype Option<+T> = None | Some(value: T)

}
