/**
 The file validators of Ignition config version 2.4 (the legacy schema the
 converter reads). Each builds a fresh report from one File or FileContents.
 The helpers they call but that are not part of this model (validateMode,
 validateURL, Go's url.Parse) are passed in as functions.
 */
module TypesV24 {
  import opened Wrappers
  import opened Errors
  import opened LegacyReport

  datatype HTTPHeader = HTTPHeader(name: string, value: string)

  datatype Verification = Verification(hash: Option<string>)

  datatype FileContents = FileContents(
    compression: string,
    httpHeaders: seq<HTTPHeader>,
    source: string,
    verification: Verification)

  /** A file entry; the Node fields other than overwrite (filesystem, path, user, group) are not used here. */
  datatype File = File(overwrite: Option<bool>, append: bool, contents: FileContents, mode: Option<int>)

  /** What url.Parse makes of a string: the URL's scheme, or a failure. */
  datatype ParsedUrl = Parsed(scheme: string) | ParseFailed

  // The rules of the legacy schema, stated on the entities themselves.

  /** Appending to a file and overwriting it are mutually exclusive. */
  predicate AppendOverwriteExclusive(f: File) {
    !(f.overwrite == Some(true) && f.append)
  }

  predicate CompressionSupported(compression: string) {
    compression == "" || compression == "gzip"
  }

  /** HTTP headers may only be sent to a source that parses with scheme http or https. */
  predicate HeadersAllowed(fc: FileContents, parse: string -> ParsedUrl) {
    |fc.httpHeaders| == 0 ||
    (parse(fc.source).Parsed? && parse(fc.source).scheme in {"http", "https"})
  }

  /** No entry of the report is a warning. */
  predicate OnlyErrors(r: Report) {
    forall i :: 0 <= i < |r| ==> r[i].kind == EntryError
  }

  // The validators.

  function FileValidate(f: File): (r: Report)
    ensures r == [] <==> AppendOverwriteExclusive(f)
    ensures |r| <= 1
    ensures forall i :: 0 <= i < |r| ==> r[i] == Entry(EntryError, ErrAppendAndOverwrite)
  {
    if f.overwrite != None && f.overwrite.value && f.append then
      ReportFromError(ErrAppendAndOverwrite, EntryError)
    else
      []
  }

  function ValidateMode(f: File, validateMode: Option<int> -> Option<Message>): (r: Report)
    ensures |r| == (if validateMode(f.mode) != None then 1 else 0) + (if f.mode == None then 1 else 0)
    ensures validateMode(f.mode) != None ==> r[0] == Entry(EntryError, validateMode(f.mode).value)
    ensures f.mode == None ==> r[|r| - 1] == Entry(EntryWarning, ErrPermissionsUnset)
    ensures f.mode != None ==> OnlyErrors(r)
    ensures IsFatal(r) <==> validateMode(f.mode) != None
  {
    var err := validateMode(f.mode);
    var r := if err != None then [Entry(EntryError, err.value)] else [];
    if f.mode == None then r + [Entry(EntryWarning, ErrPermissionsUnset)] else r
  }

  function ValidateCompression(fc: FileContents): (r: Report)
    ensures r == [] <==> CompressionSupported(fc.compression)
    ensures |r| <= 1
    ensures forall i :: 0 <= i < |r| ==> r[i] == Entry(EntryError, ErrCompressionInvalid)
  {
    match fc.compression
    case "" => []
    case "gzip" => []
    case _ => [Entry(EntryError, ErrCompressionInvalid)]
  }

  function ValidateSource(fc: FileContents, validateURL: string -> Option<Message>): (r: Report)
    ensures r == [] <==> validateURL(fc.source) == None
    ensures |r| <= 1
    ensures forall i :: 0 <= i < |r| ==>
              r[i] == Entry(EntryError, InvalidSourceUrl(fc.source, validateURL(fc.source).value))
  {
    var err := validateURL(fc.source);
    if err != None then [Entry(EntryError, InvalidSourceUrl(fc.source, err.value))] else []
  }

  function ValidateHTTPHeaders(fc: FileContents, parse: string -> ParsedUrl): (r: Report)
    ensures r == [] <==> HeadersAllowed(fc, parse)
    ensures |r| <= 1 && OnlyErrors(r)
    ensures |fc.httpHeaders| == 0 ==> r == []
    ensures |fc.httpHeaders| > 0 && parse(fc.source).ParseFailed? ==> r == [Entry(EntryError, ErrInvalidUrl)]
    ensures |fc.httpHeaders| > 0 && parse(fc.source).Parsed? ==>
              forall i :: 0 <= i < |r| ==> r[i].message == ErrUnsupportedSchemeForHTTPHeaders
  {
    if |fc.httpHeaders| < 1 then []
    else
      match parse(fc.source)
      case ParseFailed => [Entry(EntryError, ErrInvalidUrl)]
      case Parsed(scheme) =>
        match scheme
        case "http" => []
        case "https" => []
        case _ => [Entry(EntryError, ErrUnsupportedSchemeForHTTPHeaders)]
  }

  /** Only the mode check warns; every other check reports at most one entry, an error. */
  lemma OnlyModeWarns(f: File, validateMode: Option<int> -> Option<Message>,
                      validateURL: string -> Option<Message>, parse: string -> ParsedUrl)
    ensures OnlyErrors(FileValidate(f)) && |FileValidate(f)| <= 1
    ensures OnlyErrors(ValidateCompression(f.contents)) && |ValidateCompression(f.contents)| <= 1
    ensures OnlyErrors(ValidateSource(f.contents, validateURL)) && |ValidateSource(f.contents, validateURL)| <= 1
    ensures OnlyErrors(ValidateHTTPHeaders(f.contents, parse)) && |ValidateHTTPHeaders(f.contents, parse)| <= 1
    ensures !OnlyErrors(ValidateMode(f, validateMode)) <==> f.mode == None
  {
  }

}
