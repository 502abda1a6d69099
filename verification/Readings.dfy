/** The two readings of a passage whose text departs from its evident meaning. */
module Readings {
  datatype Reading = AsWritten | Intended
}
