/**
 The file validators of Ignition config version 3.0 (the schema the converter
 writes). Optional fields are Options; every report entry carries the context
 path of the field it is about. The helpers called but not part of this model
 (Node.Validate, validateMode, validateURLNilOK) are passed in as functions.
 */
module TypesV30 {
  import opened Wrappers
  import opened Errors
  import opened Report

  /** The Node fields used here; path, user and group are checked by Node.Validate. */
  datatype Node = Node(path: string, overwrite: Option<bool>)

  datatype Verification = Verification(hash: Option<string>)

  datatype FileContents = FileContents(compression: Option<string>, source: Option<string>, verification: Verification)

  datatype FileEmbedded1 = FileEmbedded1(append: seq<FileContents>, contents: FileContents, mode: Option<int>)

  datatype File = File(node: Node, embedded: FileEmbedded1)

  /** Ignition's util.IsTrue: the flag is present and true. */
  function IsTrue(b: Option<bool>): bool {
    b == Some(true)
  }

  // The rules of the current schema, stated on the entities themselves.

  /** Overwriting a file needs contents to write. */
  predicate OverwriteHasSource(f: File) {
    f.node.overwrite == Some(true) ==> f.embedded.contents.source != None
  }

  predicate CompressionSupported(compression: Option<string>) {
    compression == None || compression.value in {"", "gzip"}
  }

  /** A hash can only be checked against fetched contents. */
  predicate VerificationHasSource(fc: FileContents) {
    fc.verification.hash != None ==> fc.source != None
  }

  // The validators.

  function ValidateOverwrite(f: File): (err: Option<Message>)
    ensures err == None <==> OverwriteHasSource(f)
    ensures err != None ==> err.value == ErrOverwriteAndNilSource
    ensures f.node.overwrite != Some(true) ==> err == None
  {
    if IsTrue(f.node.overwrite) && f.embedded.contents.source == None then
      Some(ErrOverwriteAndNilSource)
    else
      None
  }

  /** Locations of the entries File.Validate adds after the Node's own. */
  function ModeAt(c: ContextPath): ContextPath { c + ["mode"] }
  function OverwriteAt(c: ContextPath): ContextPath { c + ["overwrite"] }

  function FileValidate(f: File, c: ContextPath,
                        nodeValidate: (Node, ContextPath) -> Report,
                        validateMode: Option<int> -> Option<Message>): (r: Report)
    ensures var n := nodeValidate(f.node, c); |n| <= |r| <= |n| + 2 && r[..|n|] == n
    ensures var n := nodeValidate(f.node, c);
              |r| == |n| <==> validateMode(f.embedded.mode) == None && OverwriteHasSource(f)
  {
    var r := Merge([], nodeValidate(f.node, c));
    var r := AddOnError(r, ModeAt(c), validateMode(f.embedded.mode));
    AddOnError(r, OverwriteAt(c), ValidateOverwrite(f))
  }

  /** The Node's report, then the mode check's entry, then the overwrite check's entry. */
  lemma FileValidateParts(f: File, c: ContextPath,
                          nodeValidate: (Node, ContextPath) -> Report,
                          validateMode: Option<int> -> Option<Message>)
    ensures FileValidate(f, c, nodeValidate, validateMode) ==
            nodeValidate(f.node, c) +
            EntryOnError(ModeAt(c), validateMode(f.embedded.mode)) +
            EntryOnError(OverwriteAt(c), ValidateOverwrite(f))
  {
    var n := nodeValidate(f.node, c);
    var p1 := EntryOnError(ModeAt(c), validateMode(f.embedded.mode));
    assert Merge([], n) == n;
    assert AddOnError(n, ModeAt(c), validateMode(f.embedded.mode)) == n + p1;
  }

  /** After the Node's entries come only errors, at `c`.mode with the mode error or at `c`.overwrite. */
  lemma FileValidateEntries(f: File, c: ContextPath,
                            nodeValidate: (Node, ContextPath) -> Report,
                            validateMode: Option<int> -> Option<Message>)
    ensures var r, n := FileValidate(f, c, nodeValidate, validateMode), nodeValidate(f.node, c);
      forall i :: |n| <= i < |r| ==>
        r[i].kind == Error &&
        ((r[i].context == ModeAt(c) && Some(r[i].message) == validateMode(f.embedded.mode)) ||
         (r[i].context == OverwriteAt(c) && r[i].message == ErrOverwriteAndNilSource))
  {
    FileValidateParts(f, c, nodeValidate, validateMode);
  }

  /**
   The entry at `c`.mode is there exactly when the mode check fails, the one at
   `c`.overwrite exactly when overwrite lacks a source, and mode comes first.
   */
  lemma FileValidateLocations(f: File, c: ContextPath,
                              nodeValidate: (Node, ContextPath) -> Report,
                              validateMode: Option<int> -> Option<Message>)
    ensures var r, n := FileValidate(f, c, nodeValidate, validateMode), nodeValidate(f.node, c);
      && (HasEntryAt(r[|n|..], ModeAt(c)) <==> validateMode(f.embedded.mode) != None)
      && (HasEntryAt(r[|n|..], OverwriteAt(c)) <==> !OverwriteHasSource(f))
      && (|r| == |n| + 2 ==> r[|n|].context == ModeAt(c) && r[|n| + 1].context == OverwriteAt(c))
  {
    FileValidateParts(f, c, nodeValidate, validateMode);
    var r, n := FileValidate(f, c, nodeValidate, validateMode), nodeValidate(f.node, c);
    var p1 := EntryOnError(ModeAt(c), validateMode(f.embedded.mode));
    var p2 := EntryOnError(OverwriteAt(c), ValidateOverwrite(f));
    assert r[|n|..] == p1 + p2;
    assert ModeAt(c)[|c|] != OverwriteAt(c)[|c|];
    assert [] + p1 == p1;
    EntryOnErrorLocation([], ModeAt(c), validateMode(f.embedded.mode), ModeAt(c));
    EntryOnErrorLocation([], ModeAt(c), validateMode(f.embedded.mode), OverwriteAt(c));
    EntryOnErrorLocation(p1, OverwriteAt(c), ValidateOverwrite(f), ModeAt(c));
    EntryOnErrorLocation(p1, OverwriteAt(c), ValidateOverwrite(f), OverwriteAt(c));
  }

  /** The fields of FileEmbedded1 that may differ between otherwise duplicate entries. */
  function IgnoreDuplicates(f: FileEmbedded1): (keys: set<string>)
    ensures forall k :: k in keys <==> k == "Append"
  {
    {"Append"}
  }

  function ValidateCompression(fc: FileContents): (err: Option<Message>)
    ensures err == None <==> CompressionSupported(fc.compression)
    ensures err != None ==> err.value == ErrCompressionInvalid
  {
    if fc.compression != None then
      match fc.compression.value
      case "" => None
      case "gzip" => None
      case _ => Some(ErrCompressionInvalid)
    else
      None
  }

  function ValidateVerification(fc: FileContents): (err: Option<Message>)
    ensures err == None <==> VerificationHasSource(fc)
    ensures err != None ==> err.value == ErrVerificationAndNilSource
    ensures fc.verification.hash == None ==> err == None
  {
    if fc.verification.hash != None && fc.source == None then Some(ErrVerificationAndNilSource) else None
  }

  /** Locations of FileContents' three checks, below the contents' own location. */
  function CompressionAt(c: ContextPath): ContextPath { c + ["compression"] }
  function HashAt(c: ContextPath): ContextPath { c + ["verification", "hash"] }
  function SourceAt(c: ContextPath): ContextPath { c + ["source"] }

  /** Position of a FileContents field location in the order the checks run. */
  function CheckOrder(c: ContextPath, d: ContextPath): nat {
    if d == CompressionAt(c) then 0 else if d == HashAt(c) then 1 else if d == SourceAt(c) then 2 else 3
  }

  /** Which locations the three checks of ContentsValidate give an entry to. */
  lemma LocationAfterChecks(fc: FileContents, c: ContextPath,
                            validateURLNilOK: Option<string> -> Option<Message>, d: ContextPath)
    ensures var r1 := AddOnError([], CompressionAt(c), ValidateCompression(fc));
            var r2 := AddOnError(r1, HashAt(c), ValidateVerification(fc));
            var r3 := AddOnError(r2, SourceAt(c), validateURLNilOK(fc.source));
            HasEntryAt(r3, d) <==>
              (ValidateCompression(fc) != None && d == CompressionAt(c)) ||
              (ValidateVerification(fc) != None && d == HashAt(c)) ||
              (validateURLNilOK(fc.source) != None && d == SourceAt(c))
  {
    var r1 := AddOnError([], CompressionAt(c), ValidateCompression(fc));
    var r2 := AddOnError(r1, HashAt(c), ValidateVerification(fc));
    AddOnErrorLocation([], CompressionAt(c), ValidateCompression(fc), d);
    AddOnErrorLocation(r1, HashAt(c), ValidateVerification(fc), d);
    AddOnErrorLocation(r2, SourceAt(c), validateURLNilOK(fc.source), d);
  }

  function ContentsValidate(fc: FileContents, c: ContextPath,
                            validateURLNilOK: Option<string> -> Option<Message>): (r: Report)
    ensures |r| <= 3
    ensures r == [] <==>
              CompressionSupported(fc.compression) && VerificationHasSource(fc) &&
              validateURLNilOK(fc.source) == None
  {
    var r1 := AddOnError([], CompressionAt(c), ValidateCompression(fc));
    var r2 := AddOnError(r1, HashAt(c), ValidateVerification(fc));
    AddOnError(r2, SourceAt(c), validateURLNilOK(fc.source))
  }

  /** The report is the three checks' entries, concatenated in the order the checks run. */
  lemma ContentsValidateParts(fc: FileContents, c: ContextPath,
                              validateURLNilOK: Option<string> -> Option<Message>)
    ensures ContentsValidate(fc, c, validateURLNilOK) ==
            EntryOnError(CompressionAt(c), ValidateCompression(fc)) +
            EntryOnError(HashAt(c), ValidateVerification(fc)) +
            EntryOnError(SourceAt(c), validateURLNilOK(fc.source))
  {
    var p1 := EntryOnError(CompressionAt(c), ValidateCompression(fc));
    var p2 := EntryOnError(HashAt(c), ValidateVerification(fc));
    assert AddOnError([], CompressionAt(c), ValidateCompression(fc)) == p1;
    assert AddOnError(p1, HashAt(c), ValidateVerification(fc)) == p1 + p2;
  }

  /**
   Every entry is an error located strictly below `c`, at the field of the check
   that failed and with that check's error; entries follow the order of the checks.
   */
  lemma ContentsValidateEntries(fc: FileContents, c: ContextPath,
                                validateURLNilOK: Option<string> -> Option<Message>)
    ensures var r := ContentsValidate(fc, c, validateURLNilOK);
      forall i :: 0 <= i < |r| ==>
        r[i].kind == Error && StrictlyBelow(c, r[i].context) &&
        ((r[i].context == CompressionAt(c) && r[i].message == ErrCompressionInvalid) ||
         (r[i].context == HashAt(c) && r[i].message == ErrVerificationAndNilSource) ||
         (r[i].context == SourceAt(c) && Some(r[i].message) == validateURLNilOK(fc.source)))
  {
    ContentsValidateParts(fc, c, validateURLNilOK);
    assert CompressionAt(c)[..|c|] == c && HashAt(c)[..|c|] == c && SourceAt(c)[..|c|] == c;
  }

  /** The entries follow the order in which the checks run: compression, verification.hash, source. */
  lemma ContentsValidateOrder(fc: FileContents, c: ContextPath,
                              validateURLNilOK: Option<string> -> Option<Message>)
    ensures var r := ContentsValidate(fc, c, validateURLNilOK);
      forall i, j :: 0 <= i < j < |r| ==> CheckOrder(c, r[i].context) < CheckOrder(c, r[j].context)
  {
    ContentsValidateParts(fc, c, validateURLNilOK);
    assert CompressionAt(c)[|c|] != SourceAt(c)[|c|];
    assert |HashAt(c)| != |CompressionAt(c)| && |HashAt(c)| != |SourceAt(c)|;
    assert CheckOrder(c, CompressionAt(c)) == 0 && CheckOrder(c, HashAt(c)) == 1 && CheckOrder(c, SourceAt(c)) == 2;
  }

  /** Each check of ContentsValidate reports at its own location exactly when it fails. */
  lemma ContentsValidateLocations(fc: FileContents, c: ContextPath,
                                  validateURLNilOK: Option<string> -> Option<Message>)
    ensures var r := ContentsValidate(fc, c, validateURLNilOK);
      && (HasEntryAt(r, CompressionAt(c)) <==> !CompressionSupported(fc.compression))
      && (HasEntryAt(r, HashAt(c)) <==> !VerificationHasSource(fc))
      && (HasEntryAt(r, SourceAt(c)) <==> validateURLNilOK(fc.source) != None)
  {
    assert CompressionAt(c)[|c|] != SourceAt(c)[|c|];
    assert |HashAt(c)| != |CompressionAt(c)| && |HashAt(c)| != |SourceAt(c)|;
    LocationAfterChecks(fc, c, validateURLNilOK, CompressionAt(c));
    LocationAfterChecks(fc, c, validateURLNilOK, HashAt(c));
    LocationAfterChecks(fc, c, validateURLNilOK, SourceAt(c));
  }

}
