# driveuploader upload policy, in Dafny

This project models the core of `driveuploader.py`, a command-line tool that uploads a comma-separated list of
local files to Google Drive. Files go into the top-level folder ("root") or into a named folder, which is created
when it does not exist. Each uploaded file carries a custom property `modified`, the local file's mtime in whole
seconds. When a file of the same name already exists in the folder, the tool is meant to do one of two things
(module and `upload` docstrings, driveuploader.py:3-8 and 153-154):

- without `--force`, overwrite the file only when the stored `modified` is older than the local mtime;
- with `--force`, overwrite unconditionally.

As written, it never overwrites: it subscripts the looked-up record with `[0]`, which raises KeyError. Unforced,
every existing file is then skipped; forced, the batch ends at the update call. "## Findings" records both, and
the model follows the intended rule.

The model:

- `Store`: the remote side. The Drive is an ordered list of file records. The order is the order a listing
  returns them in, so "the first match" is the first index. Files are never deleted, and a file's id is its
  position in that list, so a new file gets the next position as its id. Folder and file listings are structured queries (`FolderNamed`, `FileIn`). Create and update are functions
  on the store.
- `Paths`: splitting the file list at commas (`str.split`), and the last path component (`os.path.split(p)[-1]`
  with POSIX separators).
- `Policy`: the pure create/update/skip decision.
- `Batch`: the loop as specification functions.
  - `Step` handles one entry of the file list.
  - `Run` handles the whole list, as a left fold (`RunPrefix` over the first `k` entries, with `RunThrough` for
    the step of entry `k - 1`).
  - The lemmas state what each outcome does to the store, that entries are handled independently, and that a
    repeated unforced batch writes nothing (`RerunIsNoOp`).
- `DriveUploader.Uploader`: the `Uploader` class, whose methods change the store. `Upload` is the source's `for`
  loop with its `continue`s, and it is proved equal to `Batch.Run`.
- `AsWritten`: the decision exactly as the code subscripts the looked-up record (see Findings).

The local file system is a map from file-list entry to `LocalFile(mtime, content)`. `os.path.getmtime` raises
when the file is missing. That exception is not caught, so in the code a missing local file ends the whole
batch, and the files listed before it have already been uploaded. The model follows the code here.

## Model

| member | source | states |
|---|---|---|
| `Paths.Split` | driveuploader.py:95 | the file list split at commas: at least one field, empty fields kept, no field contains a comma, and joining the fields with commas gives the option string back |
| `Paths.SplitJoin` | driveuploader.py:95 | splitting a comma-joined list of comma-free names gives exactly those names back |
| `Paths.BaseName` | driveuploader.py:159 | the remote name is the longest slash-free suffix of the entry: the whole entry, or the part after the last `/` |
| `Paths.BaseNameAfterDirectory` | driveuploader.py:159-163 | a plain name after a directory prefix is recovered as the remote name |
| `Store.First` | driveuploader.py:138-150 | a listing's first result is the lowest-indexed matching file, and there is none exactly when no file matches |
| `Store.FirstIs` | driveuploader.py:150 | a matching file with no match before it is the first result |
| `Store.FirstAppend` | driveuploader.py:146-150 | after a file is added at the end, the first match is the old one if there was one, else the new file if it matches, else none |
| `Store.Create` | driveuploader.py:199-204 | creating a file at the next position, with parents that already exist, keeps every id equal to its position and every parent reference valid |
| `Store.Update` | driveuploader.py:191-195 | updating by id keeps ids and parent references valid and the number of files; in a valid store every file other than the one with that id is unchanged |
| `Store.FirstStable` | driveuploader.py:150 | adding files at the end, or changing the content and properties of files, does not move an existing first match |
| `Policy.Decide` | driveuploader.py:171-205 | with no match, Created whatever `force` is; with a match and `force`, Updated; unforced: a missing `modified` gives SkippedNoMetadata; a stored value that is newer, equal or older gives SkippedNewer, SkippedSameAge or Updated respectively (each case in both directions) |
| `Policy.UnforcedWriteMovesForward` | driveuploader.py:178-187 | an unforced overwrite happens only when the stored timestamp is present and strictly older than the local one |
| `Batch.ResolveFolderSpec` | driveuploader.py:108-136 | "root" is used without lookup or creation. A named folder resolves to the first folder of that name; only when none exists is exactly one folder created (in the top level, under a fresh id). Resolving again returns the same folder and creates nothing |
| `Batch.ResolveStable` | driveuploader.py:112-121 | a folder found without creating anything is found again, without creating anything, after files are added or rewritten |
| `Batch.MatchIndex` | driveuploader.py:169-170 | the file `find_drive_files` returns is a file of the store after folder resolution, and in a valid store a match means that resolution created nothing |
| `Batch.NewFolderIsEmpty` | driveuploader.py:118-119 | a folder that folder resolution has just created contains no file, so the lookup in it finds nothing |
| `Batch.StepCreatesWhenAbsent` | driveuploader.py:158-205 | with no match, whatever `force` is: one file is appended, named after the last path component, with parents `[folder]`, `modified` set to the local mtime and the local content. No existing file changes, and the next lookup finds the new file |
| `Batch.UpdateEffect` | driveuploader.py:189-197 | an update rewrites only the matched file's `modified` and content, creates no folder, and the next lookup finds the same file |
| `Batch.StepForceUpdates` | driveuploader.py:171-197 | forced, with a match: the first matching file gets the local mtime and content, every other file is unchanged, and no folder is created |
| `Batch.StepUpdatesOlder` | driveuploader.py:178-197 | unforced, with a match whose stored timestamp is older: that file gets the local mtime and content, and every other file is unchanged |
| `Batch.StepSkipsWithoutMetadata` | driveuploader.py:173-177 | unforced, with a match that lacks `modified`: SkippedNoMetadata, and the store is unchanged |
| `Batch.StepNeverClobbersNewer` | driveuploader.py:178-182 | unforced, with a match stored as newer than the local file: SkippedNewer, and the store is unchanged |
| `Batch.StepSkipsSameAge` | driveuploader.py:183-187 | unforced, with a match stored at the local mtime: SkippedSameAge, and the store is unchanged |
| `Batch.StepAborts` | driveuploader.py:164 | a step stops the batch exactly when the entry's local file is missing |
| `Batch.RunLast` | driveuploader.py:158-205 | the first `k` entries are the first `k - 1` and then entry `k - 1`: nothing once the batch has stopped, a stop at a missing local file, else that entry's step with its outcome logged |
| `Batch.RunReport` | driveuploader.py:158-197 | over the first `k` entries, the batch handles entries in order and stops only at the first entry whose local file is missing. Every earlier entry is handled, skips included, and the batch completes exactly when every one of those local files exists |
| `Batch.RunKeepsFailure` | driveuploader.py:164 | once a missing local file has stopped the batch after `k` entries, the entries after it change nothing |
| `Batch.RunPrefixAbort` | driveuploader.py:164 | a batch that has not stopped before entry `i` and finds that entry's local file missing ends there, with the store and outcome log as they were |
| `Batch.StepSettles` | driveuploader.py:165-205 | an unforced step keeps the store valid and only moves timestamps forward. Afterwards its entry's match exists and either lacks `modified` or is not older than the local file |
| `Batch.SettledStable` | driveuploader.py:171-187 | a settled entry stays settled while the store only grows |
| `Batch.RunSettles` | driveuploader.py:158-205 | after an unforced batch over the first `k` entries, the store is valid and has only grown, and every handled entry, and the one that stopped the batch, is settled: a second pass over it would write nothing |
| `Batch.SettledRunIsNoOp` | driveuploader.py:171-187 | an unforced batch over settled entries leaves the store unchanged and reports only skips |
| `Batch.RerunIsNoOp` | driveuploader.py:152-205 | re-running the same unforced batch with unchanged local files performs no writes. It handles the same entries, stops at the same entry, and reports only skips |
| `DriveUploader.Uploader.constructor` | driveuploader.py:94-99 | the file list is the comma split of the option, and the folder is "root" when the option is absent or empty |
| `DriveUploader.Uploader.MakeFolder` | driveuploader.py:123-136 | appends one folder in the top level, with no `modified` property, and returns its id, the next position |
| `DriveUploader.Uploader.FindFolder` | driveuploader.py:108-121 | the new store and the returned folder are those of folder resolution |
| `DriveUploader.Uploader.FindDriveFiles` | driveuploader.py:138-150 | returns the first listed untrashed file of that name in that folder (the file at the lowest position, with no match before it, which is `Store.First`'s match), or None exactly when there is no such file |
| `DriveUploader.Uploader.Upload` | driveuploader.py:152-205 | the loop's final store, outcome log and stopping entry are exactly those of `Batch.Run` over the file list |
| `AsWritten.AsWrittenNeverUpdates` | driveuploader.py:171-197 | as written, an existing file is never updated: unforced it is always skipped as lacking metadata, and forced the batch raises |
| `AsWritten.OlderRemoteSkippedAsWritten` | driveuploader.py:173-177 | local mtime 100 over a remote file tagged 50, unforced: skipped as written, but updated by the intended rule |
| `AsWritten.ForcedUploadRaisesAsWritten` | driveuploader.py:189-195 | forced upload over an existing file: KeyError as written, but updated by the intended rule |

## Left out

- OAuth credentials, the credential store and building the Drive service (driveuploader.py:60-88, 104-106): network and file I/O. The remote store is a value inside the model.
- Command-line parsing into the global `flags` (driveuploader.py:37-49) and `main` (211-222): the options are parameters of the constructor and of `Upload`. `flags` is an argparse `Namespace`, which cannot be subscripted, so as written `flags['file_list']` (driveuploader.py:95, also 96-101, 160-161, 213, 216) raises TypeError and `__init__` fails before any upload; `DriveUploader.Uploader.constructor` models the intended option lookups, not that failure. `--check` reaches `run_check`, which does nothing, so it is not modelled.
- `--home_dir` and the script directory joined in front of each entry (driveuploader.py:160-163): the local file system is keyed by the file-list entry itself, and path joining is not modelled. `Paths.BaseName` uses POSIX `/` only. Windows separators are not modelled.
- `os.path.getmtime` returns a float, which `int()` truncates (driveuploader.py:164). The property comes back from Drive as a string, which `int()` parses (line 174). Both mtimes are integers in the model. A property that `int()` cannot parse (ValueError) is not modelled.
- `--mimetype` and the `MediaFileUpload` streaming (driveuploader.py:189-190, 200-201): the upload sets the file's content to the local bytes, and content types are not modelled.
- A local path that `os.path.getmtime` accepts but `MediaFileUpload` cannot open (driveuploader.py:189, 200) is not modelled. This covers a directory, including an empty file-list field joined to the base directory (`--file_list a.txt,`), and an unreadable file. The source raises there, outside any `try`: after folder resolution (line 169), which may already have created the folder, and before any write. The model treats every entry as either missing (the batch stops before folder resolution) or readable (its bytes are uploaded).
- Drive query strings built with `format` (driveuploader.py:115, 147-148): listings are exact name/parent/trashed matches, so quoting and query injection are not modelled. The listing order is the store's list order: creation order, which an update never changes. This is an assumption of the model; Drive chooses the order of an unordered listing. When a folder holds two files of the same name (say an untagged manual copy and a tagged upload), which one `files[0]` returns depends on that order, and `Store.FirstStable`, and through it `Batch.RerunIsNoOp`, rely on the order staying fixed. Pagination is not modelled.
- The `fields` masks of the list calls and the printed messages: the outcome log replaces the prints.
- The `fields='files(id, name)'` mask that `make_folder` passes to a create call (driveuploader.py:134): a create returns a single file, which has no `files` field, so Drive may reject the mask or `folder.get('id')` may come back None. The model assumes the created folder's id is returned (`DriveUploader.Uploader.MakeFolder`).
- Remote errors (auth, quota, network) from any service call: each call is assumed to succeed atomically.
- Other custom properties and other file metadata: a record keeps only id, name, folder flag, parents, trashed state, `modified` and content.
- tests.py: a live smoke test that constructs `Uploader` with keyword arguments it does not accept. It asserts nothing.

## Findings

| source | as written | input that shows it | evidently intended | confidence | as-written member | corrected member |
|---|---|---|---|---|---|---|
| driveuploader.py:174 | `file_found[0]['properties']` subscripts the record dict that `find_drive_files` returns with `0`; the KeyError is caught and every existing file is skipped as "Properties not defined" | remote `a.txt` tagged `modified=50`, local mtime 100, no `--force` | compare the record's own `properties.modified` and update the older copy | high; not executed | `AsWritten.OlderRemoteSkippedAsWritten` | `Policy.Decide` |
| driveuploader.py:192 | `fileId=file_found[0]['id']` raises the same KeyError outside any `try`, ending the batch | any existing `a.txt` with `--force` | update the matched file unconditionally | high; not executed | `AsWritten.ForcedUploadRaisesAsWritten` | `Batch.StepForceUpdates` |
