/**
 * The `Uploader` object of driveuploader.py: the file list and target folder
 * fixed at construction, and the remote store behind `self.service`, which
 * `find_folder`, `make_folder` and `upload` change. Each method is proved
 * against the specification functions of module Batch.
 */
module DriveUploader {
  import opened Wrappers
  import opened Paths
  import opened Store
  import opened Policy
  import opened Batch

  class Uploader {
    const fileList: seq<string>
    const driveFolder: string
    /** The remote store as the Drive service holds it. */
    var drive: Drive

    ghost predicate Valid()
      reads this
    {
      Store.Valid(drive)
    }

    /**
     * `__init__` with the command-line options passed in: the file list split
     * at commas, and the folder name, "root" when the option is absent or empty.
     */
    constructor (fileListOption: string, folderOption: Option<string>, service: Drive)
      requires Store.Valid(service)
      ensures Valid()
      ensures fileList == Split(fileListOption, Comma)
      ensures driveFolder == if folderOption.Some? && folderOption.value != "" then folderOption.value else RootName
      ensures drive == service
    {
      fileList := Split(fileListOption, Comma);
      driveFolder := if folderOption.Some? && folderOption.value != "" then folderOption.value else RootName;
      drive := service;
    }

    /** `make_folder`: a new folder in the top level, without the custom property; its fresh id is returned. */
    method MakeFolder(folderName: string) returns (id: nat)
      requires Valid()
      modifies this
      ensures Valid()
      ensures id == |old(drive).files|
      ensures drive == Create(old(drive), folderName, true, [Root], None, [])
    {
      id := |drive.files|;
      drive := Create(drive, folderName, true, [Root], None, []);
    }

    /** `find_folder`: "root" as is, else the first folder with the name, created if there is none. */
    method FindFolder() returns (folderId: ParentRef)
      requires Valid()
      modifies this
      ensures Valid()
      ensures (drive, folderId) == ResolveFolder(old(drive), driveFolder)
    {
      if driveFolder == RootName {
        return Root;
      }
      var folder := Lookup(drive.files, FolderNamed(driveFolder));
      if folder.None? {
        var id := MakeFolder(driveFolder);
        folderId := Id(id);
      } else {
        folderId := Id(folder.value.id);
      }
    }

    /** `find_drive_files`: the first untrashed file named `filename` in the folder, as listed, or None. */
    function FindDriveFiles(filename: string, folderId: ParentRef): (found: Option<DriveFile>)
      reads this
      ensures found.Some? ==> Matches(found.value, FileIn(filename, folderId)) && found.value in drive.files
      ensures found.None? ==> forall f :: f in drive.files ==> !Matches(f, FileIn(filename, folderId))
      ensures found.Some? ==>
        exists i :: (0 <= i < |drive.files| && drive.files[i] == found.value &&
          forall j :: 0 <= j < i ==> !Matches(drive.files[j], FileIn(filename, folderId)))
      ensures First(drive.files, FileIn(filename, folderId)).Some? ==>
        found == Some(drive.files[First(drive.files, FileIn(filename, folderId)).value])
    {
      Lookup(drive.files, FileIn(filename, folderId))
    }

    /**
     * `upload`: every entry of the file list in order; an entry is created,
     * updated or skipped, and a missing local file ends the batch.
     */
    method Upload(force: bool, fs: map<string, LocalFile>) returns (outcomes: seq<Outcome>, failed: Option<string>)
      requires Valid()
      modifies this
      ensures Valid()
      ensures Report(drive, outcomes, failed) == Run(old(drive), fileList, driveFolder, fs, force)
    {
      ghost var start := drive;
      outcomes, failed := [], None;
      for i := 0 to |fileList|
        invariant Valid()
        invariant RunPrefix(start, fileList, i, driveFolder, fs, force) == Report(drive, outcomes, None)
      {
        var localFile := fileList[i];
        var filename := BaseName(localFile);
        if localFile !in fs {
          // os.path.getmtime raises and the exception leaves upload
          failed := Some(localFile);
          RunPrefixAbort(start, fileList, i, driveFolder, fs, force, drive, outcomes);
          return;
        }
        var fileLastUpdate := fs[localFile].mtime;
        ghost var before := drive;
        var folderId := FindFolder();
        var fileFound := FindDriveFiles(filename, folderId);
        ghost var outcome := Decide(fileLastUpdate, fileFound, force);
        StepOf(before, localFile, driveFolder, fs, force, drive, folderId, fileFound);
        RunLast(start, fileList, i + 1, driveFolder, fs, force);
        if fileFound.Some? {
          if !force {
            if fileFound.value.modified.None? {
              assert outcome == SkippedNoMetadata;
              outcomes := outcomes + [SkippedNoMetadata];
              continue;
            }
            var modified := fileFound.value.modified.value;
            if modified > fileLastUpdate {
              assert outcome == SkippedNewer;
              outcomes := outcomes + [SkippedNewer];
              continue;
            } else if modified == fileLastUpdate {
              assert outcome == SkippedSameAge;
              outcomes := outcomes + [SkippedSameAge];
              continue;
            }
          }
          drive := Update(drive, fileFound.value.id, filename, Some(fileLastUpdate), fs[localFile].content);
          assert outcome == Updated;
          outcomes := outcomes + [Updated];
          continue;
        }
        assert Known([folderId], |drive.files| + 1) by {
          ResolveFolderSpec(before, driveFolder);
        }
        drive := Create(drive, filename, false, [folderId], Some(fileLastUpdate), fs[localFile].content);
        assert outcome == Created;
        outcomes := outcomes + [Created];
      }
    }
  }
}
