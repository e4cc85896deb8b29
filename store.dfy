/**
 * The remote file store as the uploader sees it through the Drive service:
 * an ordered list of file records, in the order in which `files().list`
 * returns them. Drive's own ids are opaque strings; the model numbers files
 * in creation order, and nothing is deleted, so a file's id is its position
 * in the list. Queries are structured
 * rather than built as query strings; `First` is "the first file the list
 * call returns", which is all the uploader ever uses of a listing.
 */
module Store {
  import opened Wrappers

  type Bytes = seq<bv8>

  /** A `parents` entry or a folder id: the top-level folder (the alias "root") or a file by id. */
  datatype ParentRef = Root | Id(id: nat)

  /**
   * One remote file. `modified` is the custom property `properties.modified`;
   * it is absent on files this tool did not write.
   */
  datatype DriveFile = DriveFile(
    id: nat,
    name: string,
    isFolder: bool,
    parents: seq<ParentRef>,
    trashed: bool,
    modified: Option<int>,
    content: Bytes)

  datatype Drive = Drive(files: seq<DriveFile>)

  /**
   * The two listings the uploader issues: folders with a given name, anywhere
   * and trashed or not (driveuploader.py lines 114-117), and untrashed files
   * with a given name whose parents include a folder (lines 146-149).
   */
  datatype Query = FolderNamed(name: string) | FileIn(name: string, parent: ParentRef)

  predicate Matches(f: DriveFile, q: Query)
  {
    match q
    case FolderNamed(n) => f.isFolder && f.name == n
    case FileIn(n, p) => p in f.parents && f.name == n && !f.trashed
  }

  /** Every parent id names a file that exists. */
  ghost predicate Known(parents: seq<ParentRef>, count: nat)
  {
    forall p :: p in parents && p.Id? ==> p.id < count
  }

  /** Each file's id is its creation number, and parents refer to existing files. */
  ghost predicate Valid(d: Drive)
  {
    forall i :: 0 <= i < |d.files| ==> d.files[i].id == i && Known(d.files[i].parents, |d.files|)
  }

  /** The index of the first file at or after position `k` that matches `q`, if any. */
  function FirstFrom(files: seq<DriveFile>, q: Query, k: nat): (r: Option<nat>)
    requires k <= |files|
    ensures r.Some? ==> k <= r.value < |files| && Matches(files[r.value], q)
    ensures r.Some? ==> forall j :: k <= j < r.value ==> !Matches(files[j], q)
    ensures r.None? ==> forall j :: k <= j < |files| ==> !Matches(files[j], q)
    decreases |files| - k
  {
    if k == |files| then None
    else if Matches(files[k], q) then Some(k)
    else FirstFrom(files, q, k + 1)
  }

  /** The index of the first listed file that matches `q`, if any. */
  function First(files: seq<DriveFile>, q: Query): (r: Option<nat>)
    ensures r.Some? ==> r.value < |files| && Matches(files[r.value], q)
    ensures r.Some? ==> forall j :: 0 <= j < r.value ==> !Matches(files[j], q)
    ensures r.None? ==> forall j :: 0 <= j < |files| ==> !Matches(files[j], q)
  {
    FirstFrom(files, q, 0)
  }

  /** The record of the first match: `files[0] if files else None`. */
  function Lookup(files: seq<DriveFile>, q: Query): Option<DriveFile>
  {
    match First(files, q)
    case None => None
    case Some(i) => Some(files[i])
  }

  /** `files().create`: the service appends a new untrashed file under the next id. */
  function Create(d: Drive, name: string, isFolder: bool, parents: seq<ParentRef>, modified: Option<int>, content: Bytes): (r: Drive)
    ensures Valid(d) && Known(parents, |d.files| + 1) ==> Valid(r)
  {
    Drive(d.files + [DriveFile(|d.files|, name, isFolder, parents, false, modified, content)])
  }

  /** The file `f` after an update that sets its name, its `modified` property and its content. */
  function Rewritten(f: DriveFile, name: string, modified: Option<int>, content: Bytes): DriveFile
  {
    f.(name := name, modified := modified, content := content)
  }

  /** `files().update` on the file with id `id`: its name, `modified` and content replaced; no other file changes. */
  function Update(d: Drive, id: nat, name: string, modified: Option<int>, content: Bytes): (r: Drive)
    ensures Valid(d) ==> Valid(r)
    ensures |r.files| == |d.files|
    ensures Valid(d) ==> forall i :: 0 <= i < |d.files| && i != id ==> r.files[i] == d.files[i]
  {
    if id < |d.files| then d.(files := d.files[id := Rewritten(d.files[id], name, modified, content)]) else d
  }

  /** Two records that agree on id, name, kind, parents and trashed state answer every query alike. */
  predicate SameEntry(f: DriveFile, g: DriveFile)
  {
    f.id == g.id && f.name == g.name && f.isFolder == g.isFolder && f.parents == g.parents && f.trashed == g.trashed
  }

  /** `b` keeps every file of `a` in place (contents and properties may differ) and may add more at the end. */
  ghost predicate Extends(a: seq<DriveFile>, b: seq<DriveFile>)
  {
    |a| <= |b| && forall i :: 0 <= i < |a| ==> SameEntry(a[i], b[i])
  }

  /** An index that matches, with no match before it, is the first match. */
  lemma FirstIs(files: seq<DriveFile>, q: Query, i: nat)
    requires i < |files| && Matches(files[i], q)
    requires forall j :: 0 <= j < i ==> !Matches(files[j], q)
    ensures First(files, q) == Some(i)
  {
    var r := First(files, q);
    assert Matches(files[i], q);
    if r.Some? {
      assert Matches(files[r.value], q);
    }
  }

  /** When no file matches, there is no first match. */
  lemma FirstNone(files: seq<DriveFile>, q: Query)
    requires forall j :: 0 <= j < |files| ==> !Matches(files[j], q)
    ensures First(files, q).None?
  {
  }

  /** Adding one file at the end does not move an existing first match; otherwise the new file is it, if it matches. */
  lemma FirstAppend(files: seq<DriveFile>, f: DriveFile, q: Query)
    ensures First(files + [f], q) ==
      if First(files, q).Some? then First(files, q) else if Matches(f, q) then Some(|files|) else None
  {
    var b := files + [f];
    assert forall j :: 0 <= j < |files| ==> b[j] == files[j];
    match First(files, q)
    case Some(i) =>
      FirstIs(b, q, i);
    case None =>
      if Matches(b[|files|], q) {
        FirstIs(b, q, |files|);
      } else {
        assert forall j :: 0 <= j < |b| ==> !Matches(b[j], q);
      }
  }

  /** Records that agree on everything a query looks at answer every query alike. */
  lemma SameEntryMatches(f: DriveFile, g: DriveFile, q: Query)
    requires SameEntry(f, g)
    ensures Matches(f, q) == Matches(g, q)
  {
  }

  /** A first match in `a` is still the first match once `a` has been extended. */
  lemma FirstStable(a: seq<DriveFile>, b: seq<DriveFile>, q: Query)
    requires Extends(a, b) && First(a, q).Some?
    ensures First(b, q) == First(a, q)
  {
    var i := First(a, q).value;
    forall j | 0 <= j <= i
      ensures Matches(b[j], q) == Matches(a[j], q)
    {
      SameEntryMatches(a[j], b[j], q);
    }
    FirstIs(b, q, i);
  }
}
