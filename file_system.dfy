/**
 * The disk the engine reads and writes, abstracted: file records in directory-enumeration
 * order (path, content, Unix mode) plus the set of existing directories. A file's content is
 * either plain bytes or a zip archive, itself a sequence of entries (key, is-directory, content).
 */
module FileSystem {
  import opened Wrappers
  import opened Text
  import opened Paths
  import opened BinaryIO

  type Mode = bv16

  /** The mode a newly created file gets (rw-r--r--). */
  const DefaultFileMode: Mode := 0x1A4

  /** One zip entry: its key (a relative path), whether it is a directory, and what it extracts to. */
  datatype ArchiveEntry = ArchiveEntry(key: string, isDirectory: bool, content: Content)

  datatype Content = Bytes(data: seq<byte>) | ZipArchive(entries: seq<ArchiveEntry>)

  datatype FileRecord = FileRecord(path: string, content: Content, mode: Mode)

  /** `dir` is a proper textual ancestor of `p`: `p` continues `dir` after a separator. */
  predicate IsUnder(os: Os, p: string, dir: string) {
    |dir| > 0 && |p| > |dir| && p[..|dir|] == dir &&
    (IsDirectorySeparator(os, p[|dir|]) || IsDirectorySeparator(os, dir[|dir| - 1]))
  }

  /** A directory path and every ancestor of it (what `Directory.CreateDirectory` creates). */
  function WithAncestors(os: Os, p: string): (r: set<string>)
    ensures p in r
    decreases |p|
  {
    {p} + match GetDirectoryName(os, p)
          case None => {}
          case Some(d) => if d == "" then {} else WithAncestors(os, d)
  }

  datatype Disk = Disk(files: seq<FileRecord>, dirs: set<string>) {

    /** `File.Exists`. */
    predicate FileExists(p: string) {
      exists i :: 0 <= i < |files| && files[i].path == p
    }

    /** `Directory.Exists`. */
    predicate DirectoryExists(p: string) {
      p in dirs
    }

    /** The first record stored under `p`. */
    function Lookup(p: string): (r: Option<FileRecord>)
      ensures r.Some? <==> FileExists(p)
      ensures r.Some? ==> r.value.path == p
    {
      LookupFrom(files, p)
    }

    /** `File.WriteAllBytes` and friends: replace the content at `p` (keeping the mode), or add a file. */
    function WriteFile(p: string, content: Content): (d: Disk)
      ensures d.dirs == dirs
      ensures d.Lookup(p).Some? && d.Lookup(p).value.content == content
      ensures forall q :: q != p ==> d.Lookup(q) == Lookup(q)
    {
      if FileExists(p) then
        var fs := seq(|files|, i requires 0 <= i < |files| =>
                        if files[i].path == p then files[i].(content := content) else files[i]);
        LookupReplaced(files, fs, p, content);
        Disk(fs, dirs)
      else
        LookupAppended(files, FileRecord(p, content, DefaultFileMode));
        Disk(files + [FileRecord(p, content, DefaultFileMode)], dirs)
    }

    /** `File.Delete`. */
    function DeleteFile(p: string): (d: Disk)
      ensures d.dirs == dirs && !d.FileExists(p)
      ensures forall q :: q != p ==> d.Lookup(q) == Lookup(q)
    {
      Disk(DropPaths(files, p), dirs)
    }

    /** `Directory.GetFiles(dir)`: the files directly inside `dir`, in enumeration order. */
    function FilesIn(os: Os, dir: string): (r: seq<string>)
      ensures forall i :: 0 <= i < |r| ==> FileExists(r[i]) && GetDirectoryName(os, r[i]) == Some(dir)
    {
      FilesInFrom(os, files, dir)
    }

    /** `Directory.CreateDirectory`: the directory and its ancestors now exist. */
    function CreateDirectory(os: Os, p: string): (d: Disk)
      ensures d.files == files && d.DirectoryExists(p) && dirs <= d.dirs
    {
      Disk(files, dirs + WithAncestors(os, p))
    }

    /** `Directory.Delete(p, recursive: true)`: the directory, its subdirectories and the files below go. */
    function DeleteDirectory(os: Os, p: string): (d: Disk)
      ensures !d.DirectoryExists(p)
      ensures forall q :: IsUnder(os, q, p) ==> !d.FileExists(q)
      ensures forall q :: !IsUnder(os, q, p) ==> d.Lookup(q) == Lookup(q)
    {
      Disk(DropUnder(os, files, p), set q | q in dirs && q != p && !IsUnder(os, q, p))
    }
  }

  function LookupFrom(fs: seq<FileRecord>, p: string): (r: Option<FileRecord>)
    ensures r.Some? <==> exists i :: 0 <= i < |fs| && fs[i].path == p
    ensures r.Some? ==> r.value.path == p
  {
    if fs == [] then None
    else if fs[0].path == p then Some(fs[0])
    else
      var r := LookupFrom(fs[1..], p);
      assert forall i :: 1 <= i < |fs| ==> fs[i] == fs[1..][i - 1];
      r
  }

  lemma {:induction false} LookupReplaced(fs: seq<FileRecord>, gs: seq<FileRecord>, p: string, c: Content)
    requires exists i :: 0 <= i < |fs| && fs[i].path == p
    requires |gs| == |fs|
    requires forall i :: 0 <= i < |fs| ==> gs[i] == if fs[i].path == p then fs[i].(content := c) else fs[i]
    ensures LookupFrom(gs, p).Some? && LookupFrom(gs, p).value.content == c
    ensures forall q :: q != p ==> LookupFrom(gs, q) == LookupFrom(fs, q)
  {
    if fs[0].path != p {
      LookupReplaced(fs[1..], gs[1..], p, c);
    }
    forall q | q != p ensures LookupFrom(gs, q) == LookupFrom(fs, q) {
      LookupOthers(fs, gs, p, c, q);
    }
  }

  lemma {:induction false} LookupOthers(fs: seq<FileRecord>, gs: seq<FileRecord>, p: string, c: Content, q: string)
    requires |gs| == |fs| && q != p
    requires forall i :: 0 <= i < |fs| ==> gs[i] == if fs[i].path == p then fs[i].(content := c) else fs[i]
    ensures LookupFrom(gs, q) == LookupFrom(fs, q)
  {
    if fs != [] {
      LookupOthers(fs[1..], gs[1..], p, c, q);
    }
  }

  lemma {:induction false} LookupAppended(fs: seq<FileRecord>, f: FileRecord)
    requires !exists i :: 0 <= i < |fs| && fs[i].path == f.path
    ensures LookupFrom(fs + [f], f.path) == Some(f)
    ensures forall q :: q != f.path ==> LookupFrom(fs + [f], q) == LookupFrom(fs, q)
  {
    if fs != [] {
      assert (fs + [f])[1..] == fs[1..] + [f];
      LookupAppended(fs[1..], f);
    }
  }

  function DropPaths(fs: seq<FileRecord>, p: string): (r: seq<FileRecord>)
    ensures !exists i :: 0 <= i < |r| && r[i].path == p
    ensures forall q :: q != p ==> LookupFrom(r, q) == LookupFrom(fs, q)
  {
    if fs == [] then []
    else if fs[0].path == p then DropPaths(fs[1..], p)
    else [fs[0]] + DropPaths(fs[1..], p)
  }

  function DropUnder(os: Os, fs: seq<FileRecord>, dir: string): (r: seq<FileRecord>)
    ensures forall i :: 0 <= i < |r| ==> !IsUnder(os, r[i].path, dir)
    ensures forall q :: !IsUnder(os, q, dir) ==> LookupFrom(r, q) == LookupFrom(fs, q)
  {
    if fs == [] then []
    else if IsUnder(os, fs[0].path, dir) then DropUnder(os, fs[1..], dir)
    else [fs[0]] + DropUnder(os, fs[1..], dir)
  }

  function FilesInFrom(os: Os, fs: seq<FileRecord>, dir: string): (r: seq<string>)
    ensures forall i :: 0 <= i < |r| ==> (exists j :: 0 <= j < |fs| && fs[j].path == r[i]) && GetDirectoryName(os, r[i]) == Some(dir)
  {
    if fs == [] then []
    else
      var rest := FilesInFrom(os, fs[1..], dir);
      assert forall i :: 0 <= i < |rest| ==> exists j :: 0 <= j < |fs| && fs[j].path == rest[i] by {
        forall i | 0 <= i < |rest| ensures exists j :: 0 <= j < |fs| && fs[j].path == rest[i] {
          var j :| 0 <= j < |fs[1..]| && fs[1..][j].path == rest[i];
          assert fs[j + 1].path == rest[i];
        }
      }
      if GetDirectoryName(os, fs[0].path) == Some(dir) then [fs[0].path] + rest else rest
  }

  /** Writing a file and then deleting it leaves the disk as deleting it alone would. */
  lemma WrittenThenDeleted(d: Disk, p: string, c: Content)
    ensures d.WriteFile(p, c).DeleteFile(p) == d.DeleteFile(p)
  {
    if d.FileExists(p) {
      DropReplaced(d.files, d.WriteFile(p, c).files, p, c);
    } else {
      DropAppended(d.files, FileRecord(p, c, DefaultFileMode));
    }
  }

  lemma {:induction false} DropReplaced(fs: seq<FileRecord>, gs: seq<FileRecord>, p: string, c: Content)
    requires |gs| == |fs|
    requires forall i :: 0 <= i < |fs| ==> gs[i] == if fs[i].path == p then fs[i].(content := c) else fs[i]
    ensures DropPaths(gs, p) == DropPaths(fs, p)
  {
    if fs != [] {
      DropReplaced(fs[1..], gs[1..], p, c);
    }
  }

  lemma {:induction false} DropAppended(fs: seq<FileRecord>, f: FileRecord)
    ensures DropPaths(fs + [f], f.path) == DropPaths(fs, f.path)
  {
    if fs == [] {
      assert DropPaths([f], f.path) == DropPaths([], f.path);
    } else {
      assert (fs + [f])[1..] == fs[1..] + [f];
      DropAppended(fs[1..], f);
    }
  }

  /** Deleting a file that does not exist changes nothing. */
  lemma DeleteAbsent(d: Disk, p: string)
    requires !d.FileExists(p)
    ensures d.DeleteFile(p) == d
  {
    DropAbsent(d.files, p);
  }

  lemma {:induction false} DropAbsent(fs: seq<FileRecord>, p: string)
    requires forall i :: 0 <= i < |fs| ==> fs[i].path != p
    ensures DropPaths(fs, p) == fs
  {
    if fs != [] {
      DropAbsent(fs[1..], p);
    }
  }

  /** A second write to the same file is the only one that shows. */
  lemma WrittenTwice(d: Disk, p: string, c1: Content, c2: Content)
    ensures d.WriteFile(p, c1).WriteFile(p, c2) == d.WriteFile(p, c2)
  {
    var d1 := d.WriteFile(p, c1);
    assert d1.FileExists(p);
    if !d.FileExists(p) {
      var n := |d.files|;
      assert d1.files == d.files + [FileRecord(p, c1, DefaultFileMode)];
      assert forall i :: 0 <= i < n ==> d.files[i].path != p;
      assert d1.WriteFile(p, c2).files == d.files + [FileRecord(p, c2, DefaultFileMode)];
    }
  }
}
