/** Optional values, for decoders that may find nothing and for option fields that may be absent. */
module Optional {

  datatype Option<+T> = None | Some(value: T)
}
