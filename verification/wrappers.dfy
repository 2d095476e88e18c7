/** The `Option` type used wherever the source has a nullable value
    (`AnalysisResult | null`, `string | null`) or a partial operation. */
module Wrappers {

  datatype Option<+T> = None | Some(value: T)
}
