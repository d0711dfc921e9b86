/** An optional value: what a failed `re.search` or a missing dictionary key yields. */
module Opt {
  datatype Option<+T> = None | Some(value: T)
}
