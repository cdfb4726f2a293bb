/** The nullable results of the stores (a missing product, an empty session)
    are modelled with an explicit Option rather than null. */
module Wrappers {

  datatype Option<+T> = None | Some(value: T)
}
