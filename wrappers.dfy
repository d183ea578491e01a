/** Optional values, used for data that the repository may fail to provide
    (a ref whose commit cannot be read, a revision that does not resolve). */
module Wrappers {

  datatype Option<+T> = None | Some(value: T)

}
