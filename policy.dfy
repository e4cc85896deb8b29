/**
 * The per-file decision of `Uploader.upload` (driveuploader.py lines 171-205):
 * create when no file of that name is in the folder, overwrite when forced or
 * when the stored `modified` property is older than the local file, skip
 * otherwise.
 */
module Policy {
  import opened Wrappers
  import opened Store

  datatype Outcome = Created | Updated | SkippedNewer | SkippedSameAge | SkippedNoMetadata
  {
    /** The outcomes that leave the remote file alone. */
    predicate IsSkip()
    {
      !Created? && !Updated?
    }
  }

  /**
   * The decision for a local file last modified at `localModified`, given the
   * first matching remote record. The source indexes the record once more
   * (`file_found[0]`, lines 174 and 192); this is the rule the docstrings
   * describe, with the record itself compared (see module AsWritten).
   */
  function Decide(localModified: int, remote: Option<DriveFile>, force: bool): (o: Outcome)
    ensures o == Created <==> remote.None?
    ensures remote.Some? && force ==> o == Updated
    ensures remote.Some? && !force ==> (o == SkippedNoMetadata <==> remote.value.modified.None?)
    ensures remote.Some? && !force && remote.value.modified.Some? ==>
      var stored := remote.value.modified.value;
      && (o == SkippedNewer <==> stored > localModified)
      && (o == SkippedSameAge <==> stored == localModified)
      && (o == Updated <==> stored < localModified)
  {
    if remote.None? then Created
    else if force then Updated
    else match remote.value.modified
      case None => SkippedNoMetadata
      case Some(stored) =>
        if stored > localModified then SkippedNewer
        else if stored == localModified then SkippedSameAge
        else Updated
  }

  /** Without force, a write never moves a stored timestamp backwards, and never touches a file without one. */
  lemma UnforcedWriteMovesForward(localModified: int, remote: Option<DriveFile>)
    requires remote.Some? && Decide(localModified, remote, false) == Updated
    ensures remote.value.modified.Some? && remote.value.modified.value < localModified
  {
  }
}
