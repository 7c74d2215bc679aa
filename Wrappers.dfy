/** The optional value used for pandas' missing entries and for a selection
    that the chart component did not report. */
module Wrappers {

  datatype Option<+T> = None | Some(value: T)
}
