/** The library's `optional`. */
module Options {
  datatype Option<+T> = None | Some(value: T)

  function OrElse(o: Option<string>, other: string): string {
    if o.Some? then o.value else other
  }
}
