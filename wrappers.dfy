/** Option, for the values job.rb leaves as `nil` until they are set. */
module Wrappers {

  datatype Option<+T> = None | Some(value: T)

}
