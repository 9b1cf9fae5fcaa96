/** Stock optional value: stands for every `T | null` and `T | undefined` of the source. */
module Options {

  datatype Option<+T> = None | Some(value: T)
}
