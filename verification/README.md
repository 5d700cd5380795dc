# ign-converter: filesystem allocation, link search and file validation

This project models the core of ign-converter, the tool that converts Ignition configs from the legacy schema (version 2.4) to the current one (version 3.0). The model covers three pieces.

- **The util package.**
  - The converter's error kinds.
  - `CheckPathUsesLink`, which finds the first config-defined link that a file, directory or link path lies beneath.
  - The helpers that convert between plain values and optional (pointer) values.
  - `FSGeneration`, which gives each legacy filesystem a name and a mount path in the caller's `fsMap`. Unnamed filesystems get `ignition<N>`. "oem" is mounted at `/usr/share/oem`, and any other new name at `/tmp/<name>-ign<M>`.
- **The legacy (2.4) file validators.** Each one returns a report of error and warning entries.
- **The current (3.0) file validators.** Each entry of their reports also carries the location, as a context path, of the field it is about.

Modules:

| file | module | contents |
|---|---|---|
| wrappers.dfy | Wrappers | `Option`, standing for a Go pointer (`None` is nil) |
| strconv.dfy | Strconv | `Decimal` (base-10 `FormatUint`) and its inverse `ParseDecimal` |
| util.dfy | Util | error kinds, link search, pointer helpers, the allocator: the spec function `Resolve` and the class `Counters` with method `FSGeneration` |
| errors.dfy | Errors | the shared error values the validators report |
| report.dfy | LegacyReport, Report | the legacy report (kind and message) and the current report (kind, message and context path) |
| types_v24.dfy | TypesV24 | legacy file validators |
| types_v30.dfy | TypesV30 | current file validators |
| versions.dfy | Versions | the two versions' compression rules compared |

`FSGeneration` updates state in place. Its package-level counters are the fields of class `Counters`. The caller's map is the field of class `FsMap`, because Go maps are shared by reference. The method is proved equal to the pure function `Resolve`, and the properties of repeated calls are proved about `ResolveAll`, which chains `Resolve`. `CheckPathUsesLink` is a method with a loop, proved equal to the recursive function `FirstLinkUsed`. Mount paths added by any run of calls are pairwise distinct, because a /tmp path determines the name it was built from. Generated names, however, are not checked against the names a config gives: an unnamed filesystem whose generated name ignition<N> is already a key shares that key and its path (`GeneratedNameMayCollide`), so the per-call results for unnamed filesystems hold only from a map without such names. The validators are pure functions. Helpers they call that are outside the model become function parameters: `validateMode`, `validateURL`, `validateURLNilOK`, Go's `url.Parse` and `Node.Validate`.

## Model

| member | source | states |
|---|---|---|
| Util.CheckPathUsesLink | util/util.go:75-86 | returns exactly `FirstLinkUsed(links, path)`: the loop scans the links in order and returns at the first one the path lies beneath |
| Util.FirstLinkUsed | util/util.go:75-86 | the result is "" or one of the links; a non-empty result is a link the path lies beneath (`path` starts with the link's directory form and differs from it) |
| Util.FirstLinkUsedIsFirst | util/util.go:76-83 | when links[i] is the first link in list order that the path lies beneath, that link is the one returned |
| Util.FirstLinkUsedNone | util/util.go:76-85 | when the path lies beneath no link, "" is returned; if no link is "", "" is returned only then |
| Util.NestedPathUsesLink | util/util.go:77-81 | any path strictly below a link's directory form uses that link |
| Util.SiblingPathDoesNotUseLink | util/util.go:77-81 | a path that extends the link's name without a "/" (/etc/foobar against /etc/foo) does not use it |
| Util.LinkExamples | util/util.go:75-86 | /etc/foo/bar uses /etc/foo and /etc/foo/; /etc/foo itself and /etc/foobar do not |
| Util.StrP | util/util.go:88-93 | nil exactly for ""; `StrV` recovers the string |
| Util.StrPStrict | util/util.go:95-97 | never nil; `StrV` recovers the string |
| Util.BoolP | util/util.go:99-104 | nil exactly for false; `BoolV` recovers the flag |
| Util.BoolPStrict | util/util.go:106-108 | never nil; `BoolV` recovers the flag |
| Util.IntP | util/util.go:110-115 | nil exactly for 0; `IntV` recovers the integer |
| Util.StrV | util/util.go:117-122 | nil reads as "", a pointer as the string it points to; `StrP` inverts it except on a pointer to "" (`PointerRoundTrips`) |
| Util.BoolV | util/util.go:124-129 | nil reads as false, a pointer as the flag it points to; `BoolP` inverts it except on a pointer to false |
| Util.IntV | util/util.go:131-136 | nil reads as 0, a pointer as the integer it points to; `IntP` inverts it except on a pointer to 0 |
| Util.PointerRoundTrips | util/util.go:117-136 | a pointer read with StrV/BoolV/IntV and turned back into a pointer is unchanged exactly when it does not point to the zero value |
| Strconv.Decimal | util/util.go:151 | the rendering of the counter is a non-empty string of digits without a leading zero |
| Strconv.ParseDecimalOfDecimal | util/util.go:151 | reading the rendering of n back as a number gives n |
| Strconv.DecimalInjective | util/util.go:151 | different counter values are rendered differently |
| Util.Resolve | util/util.go:147-166 | the returned name is non-empty; an empty name becomes ignition<g+1> and bumps the name counter, any other name is kept; exactly that name is added to the map's keys, old keys keep their paths; a new name bumps the suffix counter and gets /usr/share/oem if it is "oem" and /tmp/<name>-ign<k+1> otherwise; a known name leaves the suffix counter alone |
| Util.ResolveKnownName | util/util.go:154-162 | a non-empty name already in the map is returned with the map and both counters unchanged |
| Util.ResolveIdempotent | util/util.go:147-166 | resolving the returned name again returns it and changes nothing |
| Util.Counters.FSGeneration | util/util.go:147-166 | the returned name and the new counters and map are those `Resolve` gives for the old ones; the name is a key of the map; both counters never decrease; the error is always nil |
| Util.ResolveAll | util/util.go:147-166 | repeated calls return one name per call, keep every old key with its path, never lower a counter, and every returned name is a key of the final map |
| Util.OemAlwaysMounted | util/util.go:156-157 | if "oem" is not mounted elsewhere beforehand, no sequence of calls mounts it anywhere but /usr/share/oem |
| Util.GeneratedIndexOfName | util/util.go:149-151 | the counter value can be read back from a generated name, which is longer than "oem" |
| Util.GeneratedNameInjective | util/util.go:149-151 | generated names for different counter values differ |
| Util.GeneratedPathIndexOf | util/util.go:151-160 | the name counter can be read back from the /tmp path of a generated name, whatever the suffix |
| Util.GeneratedPathsDistinct | util/util.go:151-160 | /tmp paths of generated names with different name counters differ, whatever the suffixes |
| Util.ResolveUnnamedStep | util/util.go:149-160 | an unnamed call on a map without the names still to be generated adds ignition<g+1> at /tmp/ignition<g+1>-ign<k+1> and keeps that freshness |
| Util.UnnamedResolutions | util/util.go:147-166 | from a map that holds none of ignition<j> for j > g, n unnamed calls in a row give the i-th call the name ignition<g+i+1> at /tmp/ignition<g+i+1>-ign<k+i+1>, and raise both counters by n |
| Util.UnnamedResolutionsDistinct | util/util.go:149-160 | unnamed calls on an empty map give pairwise distinct names and pairwise distinct mount paths |
| Util.TmpPathInjective | util/util.go:160 | a /tmp mount path determines both the name and the suffix value it was built from |
| Util.OemPathNotTmp | util/util.go:156-160 | /usr/share/oem is never a /tmp mount path |
| Util.PlacedPathsDistinct | util/util.go:156-160 | two different keys, each at /usr/share/oem (only "oem") or at a /tmp path built from its own name, never share a path |
| Util.NewKeysPlaced | util/util.go:154-162 | after any run of calls, every key added to the map is at /usr/share/oem if it is "oem" and otherwise at a /tmp path built from its own name |
| Util.NewPathsDistinct | util/util.go:154-162 | for any names and any starting map, the keys a run of calls adds get pairwise different mount paths |
| Util.GeneratedNameMayCollide | util/util.go:149-155 | when ignition<g+1> is already a key, an unnamed call returns it with its existing path, bumps only the name counter and adds nothing |
| Util.GeneratedNameCollisionExample | util/util.go:149-155 | a filesystem the config names "ignition1" followed by an unnamed one both resolve to "ignition1", with one key and one suffix value used |
| TypesV24.FileValidate | vendor/github.com/flatcar-linux/ignition/config/v2_4/types/file.go:25-30 | empty exactly when overwrite is not set to true together with append; otherwise the single error ErrAppendAndOverwrite |
| TypesV24.ValidateMode | vendor/github.com/flatcar-linux/ignition/config/v2_4/types/file.go:32-47 | one error entry, first, when validateMode fails, and one ErrPermissionsUnset warning, last, when the mode is unset; with a mode set no warning; the report is fatal exactly when validateMode fails |
| TypesV24.ValidateCompression | vendor/github.com/flatcar-linux/ignition/config/v2_4/types/file.go:49-60 | empty exactly for "" and "gzip"; otherwise the single error ErrCompressionInvalid |
| TypesV24.ValidateSource | vendor/github.com/flatcar-linux/ignition/config/v2_4/types/file.go:62-72 | empty exactly when validateURL accepts the source; otherwise one error naming the source and the cause |
| TypesV24.ValidateHTTPHeaders | vendor/github.com/flatcar-linux/ignition/config/v2_4/types/file.go:74-100 | empty exactly when there are no headers or the source parses with scheme http or https; no headers gives an empty report whatever the source; a source that does not parse gives exactly ErrInvalidUrl; any other scheme gives ErrUnsupportedSchemeForHTTPHeaders; only errors |
| TypesV24.OnlyModeWarns | vendor/github.com/flatcar-linux/ignition/config/v2_4/types/file.go:25-100 | every validator except ValidateMode gives at most one entry, an error; ValidateMode warns exactly when the mode is unset |
| TypesV30.ValidateOverwrite | vendor/github.com/flatcar-linux/ignition/v2/config/v3_0/types/file.go:32-37 | ErrOverwriteAndNilSource exactly when overwrite is present and true and the source is absent; an absent or false overwrite never errs |
| TypesV30.FileValidate | vendor/github.com/flatcar-linux/ignition/v2/config/v3_0/types/file.go:25-30 | the Node's report is a prefix, followed by at most two entries; nothing is added exactly when the mode check and the overwrite check both pass |
| TypesV30.FileValidateParts | vendor/github.com/flatcar-linux/ignition/v2/config/v3_0/types/file.go:25-30 | the report is the Node's report, then the mode check's entry if it fails, then the overwrite check's entry if it fails |
| TypesV30.FileValidateEntries | vendor/github.com/flatcar-linux/ignition/v2/config/v3_0/types/file.go:27-28 | every entry after the Node's is an error, at c.mode with the mode error or at c.overwrite with ErrOverwriteAndNilSource |
| TypesV30.FileValidateLocations | vendor/github.com/flatcar-linux/ignition/v2/config/v3_0/types/file.go:27-28 | among the entries after the Node's report, there is an entry at c.mode exactly when the mode check fails, and at c.overwrite exactly when overwrite lacks a source; when both are present, mode comes first |
| TypesV30.IgnoreDuplicates | vendor/github.com/flatcar-linux/ignition/v2/config/v3_0/types/file.go:39-43 | the set is exactly {"Append"} |
| TypesV30.ValidateCompression | vendor/github.com/flatcar-linux/ignition/v2/config/v3_0/types/file.go:52-61 | no error for absent, "" or "gzip"; ErrCompressionInvalid for any other present value |
| TypesV30.ValidateVerification | vendor/github.com/flatcar-linux/ignition/v2/config/v3_0/types/file.go:63-68 | ErrVerificationAndNilSource exactly when a hash is present and the source absent; no hash never errs |
| TypesV30.ContentsValidate | vendor/github.com/flatcar-linux/ignition/v2/config/v3_0/types/file.go:45-50 | at most three entries; empty exactly when compression, verification and source all pass |
| TypesV30.LocationAfterChecks | vendor/github.com/flatcar-linux/ignition/v2/config/v3_0/types/file.go:45-50 | after the three checks, a location has an entry exactly when it is the location of a check that failed |
| TypesV30.ContentsValidateParts | vendor/github.com/flatcar-linux/ignition/v2/config/v3_0/types/file.go:45-50 | the report is the entries of the compression, verification.hash and source checks, concatenated in that order |
| TypesV30.ContentsValidateEntries | vendor/github.com/flatcar-linux/ignition/v2/config/v3_0/types/file.go:46-48 | every entry is an error strictly below c, at the location of the check that failed and with that check's error |
| TypesV30.ContentsValidateOrder | vendor/github.com/flatcar-linux/ignition/v2/config/v3_0/types/file.go:46-48 | entries appear in the order compression, verification.hash, source |
| TypesV30.ContentsValidateLocations | vendor/github.com/flatcar-linux/ignition/v2/config/v3_0/types/file.go:46-48 | each field location has an entry exactly when its check fails |
| Report.AddOnErrorLocation | vendor/github.com/flatcar-linux/ignition/v2/config/v3_0/types/file.go:27-28 | AddOnError adds an entry at its own location when there is an error, and none anywhere else |
| Report.EntryOnErrorLocation | vendor/github.com/flatcar-linux/ignition/v2/config/v3_0/types/file.go:46-48 | appending a check's entry adds an entry only at that check's location, and only when the check fails |
| Versions.CompressionRulesAgree | vendor/github.com/flatcar-linux/ignition/config/v2_4/types/file.go:49-60 | a compression string the legacy validator accepts is exactly one the current validator accepts when it is present (current rule: vendor/github.com/flatcar-linux/ignition/v2/config/v3_0/types/file.go:52-61) |

## Left out

- The mutex that serialises `FSGeneration` (util/util.go:141, 148, 164) is left out: the model is single-threaded.
- Util.Counters.FSGeneration: the counters are unbounded naturals, so the wrap-around of the uint64 counters after 2^64 calls is not modelled.
- Util.Counters.FSGeneration: Go's fsMap may be a nil map; then the insertion at util/util.go:157/160 panics (after the suffix counter, and for an unnamed filesystem also the name counter, were already bumped, and with the mutex left locked). The model's map is a non-null object, so that case is not modelled.
- Util.Resolve: the counters are unbounded naturals here too, so uint64 wrap-around is not modelled.
- Util.FirstLinkUsed: a link that is the empty string and qualifies is returned as "", which cannot be told apart from "no link". So "returns "" exactly when no link qualifies" is proved only for link lists without "".
- Strings are sequences of characters, while Go's strings are bytes: `len`, `strings.HasPrefix` and `strings.HasSuffix` (util/util.go:78, 81, 149) agree with the model on valid UTF-8, and paths that are not valid UTF-8 cannot be represented.
- The `Error()` texts of the error types are not modelled; each error is a constructor carrying the fields its message names. The legacy "invalid url %q: %v" text becomes `InvalidSourceUrl(source, cause)`.
- `validateMode`, `validateURL`, `validateURLNilOK`, `url.Parse` and `Node.Validate` are not part of this model. Each is a parameter, so every property holds for any behaviour of them. `IsTrue` is taken as "present and true".
- Only the parts of the report and context-path packages that the validators use are modelled: a report is a sequence of entries, `AddOnError` appends one error entry exactly when there is an error, and `Merge` is concatenation. Context paths are sequences of field names, and tags are not modelled.
- The v2-to-v3 translator, the traversals that raise the duplicate-inode, duplicate-unit and duplicate-dropin errors, and the command-line driver are not part of this model. Only their error kinds appear.
