/**
 * The decision of `upload` exactly as driveuploader.py writes it.
 * `find_drive_files` already returns one record (`files[0]`, line 150), and
 * `upload` subscripts that record once more with `file_found[0]` (lines 174
 * and 192). The record is a dict keyed by field names, so `[0]` raises
 * KeyError. Inside the `try` of line 173 the error is caught and reported as
 * "Properties not defined", a skip; at line 192 nothing catches it, and the
 * exception leaves `upload`. Module Policy models the rule the docstrings
 * describe (lines 3-8 and 153-154), which compares the record itself.
 */
module AsWritten {
  import opened Wrappers
  import opened Store
  import opened Policy

  /** The loop body ends with an outcome, or with a KeyError that leaves `upload`. */
  datatype Effect = Proceeds(outcome: Outcome) | RaisesKeyError

  function DecideAsWritten(localModified: int, remote: Option<DriveFile>, force: bool): Effect
  {
    if remote.None? then Proceeds(Created)
    else if !force then Proceeds(SkippedNoMetadata)  // file_found[0] raises inside the try
    else RaisesKeyError                              // file_found[0] raises at the update call
  }

  /** As written, an existing file is never updated: unforced it is skipped, forced the batch stops. */
  lemma AsWrittenNeverUpdates(localModified: int, remote: Option<DriveFile>, force: bool)
    ensures DecideAsWritten(localModified, remote, force) != Proceeds(Updated)
    ensures remote.Some? && !force ==> DecideAsWritten(localModified, remote, force) == Proceeds(SkippedNoMetadata)
    ensures remote.Some? && force ==> DecideAsWritten(localModified, remote, force) == RaisesKeyError
  {
  }

  /** A tagged remote copy older than the local file: skipped as written, updated by the intended rule. */
  lemma OlderRemoteSkippedAsWritten()
    ensures var remote := Some(DriveFile(7, "a.txt", false, [Root], false, Some(50), []));
      && DecideAsWritten(100, remote, false) == Proceeds(SkippedNoMetadata)
      && Decide(100, remote, false) == Updated
  {
  }

  /** A forced upload over an untagged remote copy: KeyError as written, updated by the intended rule. */
  lemma ForcedUploadRaisesAsWritten()
    ensures var remote := Some(DriveFile(7, "a.txt", false, [Root], false, None, []));
      && DecideAsWritten(100, remote, true) == RaisesKeyError
      && Decide(100, remote, true) == Updated
  {
  }
}
