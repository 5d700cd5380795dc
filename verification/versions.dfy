/**
 The two schema versions side by side: the converter carries a file's
 compression over from the legacy config to the current one, and both
 versions accept the same values.
 */
module Versions {
  import opened Wrappers
  import TypesV24
  import TypesV30

  /** A compression string the legacy validator accepts is exactly one the current validator accepts when it is present. */
  lemma CompressionRulesAgree(s: string)
    ensures TypesV24.ValidateCompression(TypesV24.FileContents(s, [], "", TypesV24.Verification(None))) == []
            <==> TypesV30.ValidateCompression(TypesV30.FileContents(Some(s), None, TypesV30.Verification(None))) == None
  {
  }
}
