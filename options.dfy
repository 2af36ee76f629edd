/** An optional value: the null pointer of the arena and the refused
    construction of the hash set are both `None`. */
module Options {
  datatype Option<T> = None | Some(value: T)
}
