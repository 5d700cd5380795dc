/**
 The report of the legacy config packages (config/validate/report): an ordered
 list of entries, each an error or a warning with its message.
 */
module LegacyReport {
  import opened Errors

  datatype EntryKind = EntryError | EntryWarning

  datatype Entry = Entry(kind: EntryKind, message: Message)

  type Report = seq<Entry>

  /** A report holding the one entry `err` of kind `kind`. */
  function ReportFromError(err: Message, kind: EntryKind): Report {
    [Entry(kind, err)]
  }

  /** The report holds at least one error. */
  predicate IsFatal(r: Report) {
    exists i :: 0 <= i < |r| && r[i].kind == EntryError
  }
}

/**
 The report of the current config packages (vcontext/report): entries carry
 the location, as a context path of field names, of the value they are about.
 */
module Report {
  import opened Wrappers
  import opened Errors

  /** A location in the config: the field names leading to a value. */
  type ContextPath = seq<string>

  datatype EntryKind = Error | Warning

  datatype Entry = Entry(kind: EntryKind, message: Message, context: ContextPath)

  type Report = seq<Entry>

  /** Appends an error entry at `c` when there is an error, and nothing otherwise. */
  function AddOnError(r: Report, c: ContextPath, err: Option<Message>): Report {
    if err == None then r else r + [Entry(Error, err.value, c)]
  }

  /** The entry a failing check adds at location `d`; nothing when it passes. */
  function EntryOnError(d: ContextPath, err: Option<Message>): Report {
    if err == None then [] else [Entry(Error, err.value, d)]
  }

  /** Appending a check's entry gives an entry to its location only, and only when it fails. */
  lemma EntryOnErrorLocation(r: Report, c: ContextPath, err: Option<Message>, d: ContextPath)
    ensures HasEntryAt(r + EntryOnError(c, err), d) <==> HasEntryAt(r, d) || (err != None && d == c)
  {
    assert r + EntryOnError(c, err) == AddOnError(r, c, err);
    AddOnErrorLocation(r, c, err, d);
  }

  /** Appends the child's entries after the parent's, keeping both orders. */
  function Merge(r: Report, child: Report): Report {
    r + child
  }

  /** Some entry of `r` is located at `c`. */
  predicate HasEntryAt(r: Report, c: ContextPath) {
    exists i :: 0 <= i < |r| && r[i].context == c
  }

  /** Adding on an error gives an entry to its own location and to no other. */
  lemma AddOnErrorLocation(r: Report, c: ContextPath, err: Option<Message>, d: ContextPath)
    ensures HasEntryAt(AddOnError(r, c, err), d) <==> HasEntryAt(r, d) || (err != None && d == c)
  {
    var r' := AddOnError(r, c, err);
    if HasEntryAt(r', d) {
      var i :| 0 <= i < |r'| && r'[i].context == d;
      if i < |r| {
        assert r[i] == r'[i];
      }
    }
    if HasEntryAt(r, d) {
      var i :| 0 <= i < |r| && r[i].context == d;
      assert r'[i] == r[i];
    }
    if err != None {
      assert r'[|r|].context == c;
    }
  }

  /** `c` is a proper ancestor of `d`. */
  predicate StrictlyBelow(c: ContextPath, d: ContextPath) {
    |c| < |d| && d[..|c|] == c
  }
}
