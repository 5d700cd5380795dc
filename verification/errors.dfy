/**
 The errors of Ignition's shared errors packages that the file validators
 report. Both config versions use the same names, so one datatype serves both.
 */
module Errors {

  datatype Message =
    | ErrAppendAndOverwrite               // legacy: append and overwrite are mutually exclusive
    | ErrPermissionsUnset                 // file mode not given (a warning)
    | ErrCompressionInvalid               // compression other than "" and "gzip"
    | ErrInvalidUrl                       // a source URL that does not parse
    | ErrUnsupportedSchemeForHTTPHeaders  // HTTP headers with a source that is not http(s)
    | ErrOverwriteAndNilSource            // overwrite requested without a source
    | ErrVerificationAndNilSource         // a hash to verify without a source
    | InvalidSourceUrl(source: string, cause: Message)  // legacy "invalid url" entry naming the source
    | Other(text: string)                 // an error from a validator outside this model

}
