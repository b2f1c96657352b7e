/** What several components share. */
module Common {

  datatype Option<T> = None | Some(value: T)

  /** The size of Go's uint32. */
  const UINT32 := 0x1_0000_0000

  /** Function ids below this are reserved for the built-in and watcher apis, and
      serve as request numbers themselves. */
  const WATCH_IN_MAX := 100
}
