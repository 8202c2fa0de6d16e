/** The optional value used wherever the rule works with `null` (a name that
    cannot be resolved, a frame with no previous key, an absent option). */
module Wrappers {

  datatype Option<+T> = None | Some(value: T)
}
