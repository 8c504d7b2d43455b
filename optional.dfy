/** Optional values: an optional TypeScript property (`x?: T`) is either absent or present. */
module Optional {

  datatype Option<+T> = None | Some(value: T)
}
