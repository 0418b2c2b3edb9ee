/** An optional value: the model of a TypeScript optional property (`x?: T`)
    and of a parse that may fail. */
module Optional {
  datatype Option<T> = None | Some(value: T)
}
