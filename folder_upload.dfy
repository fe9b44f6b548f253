/**
 * The folder-upload hook: a directory picked in the browser is walked one
 * level deep, files of sub-directories are renamed after a generated
 * sub-folder name, and on `upload-photos` the collected files are filtered
 * (sub-folder files dropped unless asked for, then by type) and uploaded.
 */
module FolderUpload {
  import opened Wrappers
  import opened JsString
  import opened Seqs

  /** A `File`: its name and MIME type (its bytes are not modelled). */
  datatype File = File(name: string, fileType: string)

  /** An entry of a directory handle: a file, or a directory with its own entries. */
  datatype Entry = FileEntry(file: File) | DirEntry(name: string, children: seq<Entry>)

  /** The types `validateFileType` accepts, in the source's order. */
  const AllowedTypes: seq<string> := [".jpg", ".jpeg", ".png", "image/jpeg", "image/png"]

  /** `allowedTypes.includes(file.type)`. */
  predicate ValidateFileType(f: File) {
    f.fileType in AllowedTypes
  }

  /** `subFolders.find(value => name.includes(value))`. */
  function FindContained(name: string, subFolders: seq<string>): (r: Option<string>)
    ensures r.None? <==> forall v :: v in subFolders ==> !Contains(name, v)
    ensures r.Some? ==> r.value in subFolders && Contains(name, r.value)
  {
    if subFolders == [] then None
    else if Contains(name, subFolders[0]) then
      assert subFolders[0] in subFolders;
      Some(subFolders[0])
    else
      var r := FindContained(name, subFolders[1..]);
      assert forall v :: v in subFolders[1..] ==> v in subFolders;
      assert r.None? ==> forall v :: v in subFolders ==> !Contains(name, v) by {
        if r.None? {
          forall v | v in subFolders
            ensures !Contains(name, v)
          {
            if v != subFolders[0] {
              assert v in subFolders[1..];
            }
          }
        }
      }
      r
  }

  /** The filter's test: `find` came back falsy (nothing found, or an empty name found). */
  predicate NotOfSubFolder(f: File, subFolders: seq<string>) {
    var found := FindContained(f.name, subFolders);
    found.None? || found.value == ""
  }

  /** `rejectFilesOfSubFolders`. */
  function RejectFilesOfSubFolders(files: seq<File>, subFolders: seq<string>): (r: seq<File>)
    ensures IsSubsequence(r, files)
    ensures forall f :: f in r <==> f in files && NotOfSubFolder(f, subFolders)
  {
    FilterIsSubsequence(files, f => NotOfSubFolder(f, subFolders));
    Filter(files, f => NotOfSubFolder(f, subFolders))
  }

  /** With no empty sub-folder name, a file is kept exactly when no sub-folder name occurs in its name. */
  lemma NotOfSubFolderIff(f: File, subFolders: seq<string>)
    requires forall v :: v in subFolders ==> v != ""
    ensures NotOfSubFolder(f, subFolders) <==> forall v :: v in subFolders ==> !Contains(f.name, v)
  {
  }

  /** `${uuidv4()}-dsp-${value.name}`. */
  function DirName(uuid: string, name: string): (r: string)
    ensures StartsWith(r, uuid + "-dsp-") && r[|uuid| + 5..] == name
  {
    Joined(uuid, "-dsp-", name)
  }

  /** `${directoryName}-fsp-${fileData.name}`. */
  function SubFileName(dir: string, fileName: string): (r: string)
    ensures StartsWith(r, dir + "-fsp-") && r[|dir| + 5..] == fileName
  {
    Joined(dir, "-fsp-", fileName)
  }

  /** The naming scheme of both: a prefix and a name around a fixed marker, from which both can be read back. */
  function Joined(prefix: string, marker: string, name: string): (r: string)
    ensures StartsWith(r, prefix + marker) && r[|prefix| + |marker|..] == name
  {
    var r := prefix + marker + name;
    assert r[..|prefix| + |marker|] == prefix + marker;
    r
  }

  /** The files of one sub-directory, renamed; its own sub-directories are skipped. */
  function DirFiles(dir: string, children: seq<Entry>): (r: seq<File>)
    ensures forall f :: f in r ==> StartsWith(f.name, dir + "-fsp-")
  {
    if children == [] then []
    else
      var init := DirFiles(dir, children[..|children| - 1]);
      var last := children[|children| - 1];
      if last.FileEntry? then init + [File(SubFileName(dir, last.file.name), last.file.fileType)] else init
  }

  /**
   * The sub-folder names recorded for `entries`; `uuid(k)` is what the
   * `k`-th call of `uuidv4` returns.
   */
  function CollectedDirs(entries: seq<Entry>, uuid: nat -> string): (r: seq<string>)
    ensures forall v :: v in r ==> v != ""
  {
    if entries == [] then []
    else
      var init := CollectedDirs(entries[..|entries| - 1], uuid);
      var last := entries[|entries| - 1];
      if last.DirEntry? then init + [DirName(uuid(|init|), last.name)] else init
  }

  /** The files collected from `entries`: top-level files as they are, sub-directory files renamed. */
  function CollectedFiles(entries: seq<Entry>, uuid: nat -> string): seq<File> {
    if entries == [] then []
    else
      var init := entries[..|entries| - 1];
      var last := entries[|entries| - 1];
      if last.DirEntry? then
        CollectedFiles(init, uuid) + DirFiles(DirName(uuid(|CollectedDirs(init, uuid)|), last.name), last.children)
      else CollectedFiles(init, uuid) + [last.file]
  }

  /** The files lying directly in the picked directory. */
  function TopLevelFiles(entries: seq<Entry>): seq<File> {
    if entries == [] then []
    else
      var init := TopLevelFiles(entries[..|entries| - 1]);
      var last := entries[|entries| - 1];
      if last.FileEntry? then init + [last.file] else init
  }

  /** Every collected file lies at the top level or carries the name of a recorded sub-folder. */
  lemma {:induction false} CollectedFileOrigin(entries: seq<Entry>, uuid: nat -> string, f: File)
    requires f in CollectedFiles(entries, uuid)
    ensures f in TopLevelFiles(entries) || exists v :: v in CollectedDirs(entries, uuid) && Contains(f.name, v)
    decreases |entries|
  {
    var init := entries[..|entries| - 1];
    var last := entries[|entries| - 1];
    if f in CollectedFiles(init, uuid) {
      CollectedFileOrigin(init, uuid, f);
    } else if last.DirEntry? {
      var dir := DirName(uuid(|CollectedDirs(init, uuid)|), last.name);
      assert f in DirFiles(dir, last.children);
      assert StartsWith(f.name, dir + "-fsp-");
      assert f.name[..|dir|] == dir;
      assert StartsWith(f.name, dir);
      assert dir in CollectedDirs(entries, uuid);
    }
  }

  /** Every top-level file is collected under its own name. */
  lemma {:induction false} TopLevelCollected(entries: seq<Entry>, uuid: nat -> string, f: File)
    requires f in TopLevelFiles(entries)
    ensures f in CollectedFiles(entries, uuid)
    decreases |entries|
  {
    var init := entries[..|entries| - 1];
    if f in TopLevelFiles(init) {
      TopLevelCollected(init, uuid, f);
    }
  }

  /**
   * Rejecting sub-folder files after a pick leaves only top-level files,
   * and keeps each top-level file that carries no sub-folder name.
   */
  lemma OnlyTopLevelSurvive(entries: seq<Entry>, uuid: nat -> string)
    ensures var dirs := CollectedDirs(entries, uuid);
      forall f :: f in RejectFilesOfSubFolders(CollectedFiles(entries, uuid), dirs) ==> f in TopLevelFiles(entries)
    ensures var dirs := CollectedDirs(entries, uuid);
      forall f :: f in TopLevelFiles(entries) && (forall v :: v in dirs ==> !Contains(f.name, v)) ==>
        f in RejectFilesOfSubFolders(CollectedFiles(entries, uuid), dirs)
  {
    var dirs := CollectedDirs(entries, uuid);
    var files := CollectedFiles(entries, uuid);
    forall f | f in RejectFilesOfSubFolders(files, dirs)
      ensures f in TopLevelFiles(entries)
    {
      CollectedFileOrigin(entries, uuid, f);
      NotOfSubFolderIff(f, dirs);
    }
    forall f | f in TopLevelFiles(entries) && (forall v :: v in dirs ==> !Contains(f.name, v))
      ensures f in RejectFilesOfSubFolders(files, dirs)
    {
      TopLevelCollected(entries, uuid, f);
      NotOfSubFolderIff(f, dirs);
    }
  }

  /** The list `upload-photos` uploads. */
  function UploadSelection(files: seq<File>, subFolders: seq<string>, includeSubFolders: bool): (r: seq<File>)
    ensures IsSubsequence(r, files)
    ensures forall f :: f in r ==> ValidateFileType(f)
    ensures !includeSubFolders ==> forall f :: f in r ==> NotOfSubFolder(f, subFolders)
    ensures forall f :: f in files && ValidateFileType(f) && (includeSubFolders || NotOfSubFolder(f, subFolders)) ==> f in r
  {
    var kept := if includeSubFolders then files else RejectFilesOfSubFolders(files, subFolders);
    SubsequenceOfSelf(files);
    FilterIsSubsequence(kept, ValidateFileType);
    SubsequenceTransitive(Filter(kept, ValidateFileType), kept, files);
    Filter(kept, ValidateFileType)
  }

  /** What the hook pushes to the server. */
  datatype FolderInformation = FolderInformation(folder: string, subFolders: seq<string>)

  /**
   * One hook instance: the closure's `files` and `subFolders`, its pushes
   * and its uploads. Both lists are declared with `let` and stay
   * `undefined` until a directory has been picked; `picked` says whether
   * that has happened, and until then `files` and `subFolders` hold no
   * meaning.
   */
  class Uploader {
    var picked: bool
    var files: seq<File>
    var subFolders: seq<string>
    var pushes: seq<FolderInformation>
    var uploads: seq<seq<File>>

    constructor ()
      ensures !picked && pushes == [] && uploads == []
    {
      picked := false;
      files := [];
      subFolders := [];
      pushes := [];
      uploads := [];
    }

    /**
     * A click on `#folder-upload` and a picked directory: both lists are
     * reset, the entries are walked in order, and `folder-information` is
     * pushed with the sub-folder names.
     */
    method Pick(folder: string, entries: seq<Entry>, uuid: nat -> string)
      modifies this`picked, this`files, this`subFolders, this`pushes
      ensures picked
      ensures files == CollectedFiles(entries, uuid)
      ensures subFolders == CollectedDirs(entries, uuid)
      ensures pushes == old(pushes) + [FolderInformation(folder, subFolders)]
    {
      picked := true;
      files := [];
      subFolders := [];
      for i := 0 to |entries|
        invariant files == CollectedFiles(entries[..i], uuid)
        invariant subFolders == CollectedDirs(entries[..i], uuid)
        invariant pushes == old(pushes) && picked
      {
        assert entries[..i + 1][..i] == entries[..i];
        var value := entries[i];
        if value.DirEntry? {
          var directoryName := DirName(uuid(|subFolders|), value.name);
          subFolders := subFolders + [directoryName];
          var start := files;
          for j := 0 to |value.children|
            invariant files == start + DirFiles(directoryName, value.children[..j])
            invariant subFolders == CollectedDirs(entries[..i + 1], uuid)
            invariant pushes == old(pushes) && picked
          {
            assert value.children[..j + 1][..j] == value.children[..j];
            var value2 := value.children[j];
            if value2.FileEntry? {
              files := files + [File(SubFileName(directoryName, value2.file.name), value2.file.fileType)];
            }
          }
          assert value.children[..|value.children|] == value.children;
        } else {
          files := files + [value.file];
        }
      }
      assert entries[..|entries|] == entries;
      pushes := pushes + [FolderInformation(folder, subFolders)];
    }

    /**
     * `upload-photos`: sub-folder files are dropped unless included, then
     * files of other types; the upload is started even when nothing is
     * left, since `files != []` compares two distinct arrays. Before any
     * pick, `files.filter` of `undefined` throws a TypeError (`ok` false)
     * and nothing is uploaded.
     */
    method UploadPhotos(includeSubFolders: bool) returns (ok: bool)
      modifies this`files, this`uploads
      ensures ok == picked
      ensures !ok ==> files == old(files) && uploads == old(uploads)
      ensures ok ==> files == UploadSelection(old(files), subFolders, includeSubFolders)
      ensures ok ==> uploads == old(uploads) + [files]
    {
      if !picked {
        return false;
      }
      ok := true;
      if !includeSubFolders {
        files := RejectFilesOfSubFolders(files, subFolders);
      }
      files := Filter(files, ValidateFileType);
      uploads := uploads + [files];
    }
  }
}
