/**
 * `ProfileProvider`: the registry of profiles, the active profile, and the snapshot archive each
 * profile keeps under the manager folder (`.gmp/profiles/<name>.zip`) of the BepInEx configs and
 * patchers found in the game folder.
 */
module ProfileProvider {
  import opened Wrappers
  import opened Text
  import opened Paths
  import opened FileSystem
  import opened FileUtils
  import opened FolderViewer
  import opened ProfileModel
  import opened ProfileItemUtils

  const ProfileFolderName: string := "profiles"
  const TempContentZipFileSuffix: string := "_TEMP"
  const ContentZipFileExtension: string := ".zip"

  /**
   * `_currentProfileItem`: none yet, the profile at an index of the list, or a profile object that
   * a rescan dropped from the list (the field keeps referring to it).
   */
  datatype Current = NoCurrent | InList(index: nat) | Detached(item: ProfileItem)

  /** The profile names of a list, in order. */
  function Names(profiles: seq<ProfileItem>): (r: seq<string>)
    ensures |r| == |profiles|
    ensures forall i :: 0 <= i < |profiles| ==> r[i] == profiles[i].profileName
  {
    seq(|profiles|, i requires 0 <= i < |profiles| => profiles[i].profileName)
  }

  /** Some profile of the list is called `name`, ignoring case. */
  predicate NameTaken(profiles: seq<ProfileItem>, name: string) {
    exists i :: 0 <= i < |profiles| && EqualsIgnoreCase(profiles[i].profileName, name)
  }

  // ---------------------------------------------------------------------------------------------
  // Rescanning the profiles folder

  /** Each file's name is not greater (ordinal) than the next one's. */
  predicate NameOrdered(os: Os, files: seq<string>) {
    forall i :: 0 <= i < |files| - 1 ==> OrdinalLessEq(GetFileName(os, files[i]), GetFileName(os, files[i + 1]))
  }

  /** `f` placed after every file of `sorted` whose name is not greater than its own. */
  function InsertByName(os: Os, f: string, sorted: seq<string>): (r: seq<string>)
    requires NameOrdered(os, sorted)
    ensures NameOrdered(os, r)
    ensures multiset(r) == multiset(sorted) + multiset{f}
    ensures |r| > 0 && (r[0] == f || (sorted != [] && r[0] == sorted[0]))
  {
    if sorted == [] then [f]
    else if !OrdinalLessEq(GetFileName(os, sorted[0]), GetFileName(os, f)) then
      OrdinalTotal(GetFileName(os, sorted[0]), GetFileName(os, f));
      ConsOrdered(os, f, sorted);
      [f] + sorted
    else
      assert sorted == [sorted[0]] + sorted[1..];
      assert NameOrdered(os, sorted[1..]);
      var rest := InsertByName(os, f, sorted[1..]);
      assert OrdinalLessEq(GetFileName(os, sorted[0]), GetFileName(os, rest[0])) by {
        if rest[0] != f { assert 0 < |sorted| - 1; }
      }
      ConsOrdered(os, sorted[0], rest);
      [sorted[0]] + rest
  }

  /** A file whose name is not greater than the first name of an ordered list extends it in order. */
  lemma ConsOrdered(os: Os, f: string, files: seq<string>)
    requires NameOrdered(os, files)
    requires files != [] ==> OrdinalLessEq(GetFileName(os, f), GetFileName(os, files[0]))
    ensures NameOrdered(os, [f] + files)
  {
    var r := [f] + files;
    forall i | 0 <= i < |r| - 1
      ensures OrdinalLessEq(GetFileName(os, r[i]), GetFileName(os, r[i + 1]))
    {
      if i > 0 {
        assert r[i] == files[i - 1] && r[i + 1] == files[i];
      }
    }
  }

  /** `OrderBy(p => p.Name)` over the files of a folder: ordered by file name, the same files. */
  function SortByName(os: Os, files: seq<string>): (r: seq<string>)
    ensures NameOrdered(os, r)
    ensures multiset(r) == multiset(files)
  {
    if files == [] then []
    else
      var init := files[..|files| - 1];
      assert files == init + [files[|files| - 1]];
      InsertByName(os, files[|files| - 1], SortByName(os, init))
  }

  /** The profile name each archive file gives: its file name without the extension. */
  function FileNames(os: Os, files: seq<string>): (r: seq<string>)
    ensures |r| == |files|
    ensures forall i :: 0 <= i < |files| ==> r[i] == GetFileNameWithoutExtension(os, files[i])
  {
    seq(|files|, i requires 0 <= i < |files| => GetFileNameWithoutExtension(os, files[i]))
  }

  /**
   * The profile names a rescan of `folder` yields: one per file, in file-name order, each the
   * file name without its extension; the default profile's name when the folder holds no file.
   */
  function RescannedNames(os: Os, disk: Disk, folder: string): (r: seq<string>)
    ensures |r| >= 1
    ensures disk.FilesIn(os, folder) == [] ==> r == [DefaultProfileName]
  {
    var files := SortByName(os, disk.FilesIn(os, folder));
    if files == [] then
      assert |multiset(disk.FilesIn(os, folder))| == 0;
      [DefaultProfileName]
    else FileNames(os, files)
  }

  /**
   * The index a rescan activates: the previous active profile's id if it is below the new count,
   * else 0; with no previous active profile, `defaultSelection` if it is in range, else 0.
   */
  function RescanSelection(previousId: Option<int>, count: nat, defaultSelection: int): (r: int)
    ensures count > 0 && (previousId.Some? ==> previousId.value >= 0) ==> 0 <= r < count
    ensures previousId.Some? && 0 <= previousId.value < count ==> r == previousId.value
    ensures previousId.Some? && previousId.value >= count ==> r == 0
    ensures previousId.None? && 0 <= defaultSelection < count ==> r == defaultSelection
    ensures previousId.None? && !(0 <= defaultSelection < count) ==> r == 0
  {
    match previousId
    case Some(id) => if id < count then id else 0
    case None => if defaultSelection < 0 || defaultSelection >= count then 0 else defaultSelection
  }

  /** `GetOrCreateProfilesFolder` before the directory is created: `profiles` under the manager folder. */
  function ProfilesFolder(viewer: Roots): (r: Result<string, Exception>)
    ensures viewer.rootPath == "" ==> r == Err(NullReference)
  {
    match GetPathFrom(viewer, ManagerRoot, false)
    case Err(e) => Err(e)
    case Ok(managerRoot) => SearchPath(viewer, [managerRoot, ProfileFolderName])
  }

  // ---------------------------------------------------------------------------------------------
  // Gathering the game's folders into a profile

  /** The game root and the three BepInEx folders a gather reads. */
  datatype GatherPaths = GatherPaths(root: string, configsPath: string, patchersPath: string, modsPath: string)

  /** The paths a gather resolves, or the error that makes it fail. */
  function GatherFolders(viewer: Roots): (r: Result<GatherPaths, Exception>)
    ensures viewer.rootPath == "" ==> r == Err(NullReference)
    ensures r.Ok? ==> GetGameRootPath(viewer) == Ok(r.value.root)
  {
    match GetGameRootPath(viewer)
    case Err(e) => Err(e)
    case Ok(root) =>
      match GetPathFrom(viewer, BepInEx, true)
      case Err(e) => Err(e)
      case Ok(bepInExPath) =>
        match SearchPath(viewer, [bepInExPath, "config"])
        case Err(e) => Err(e)
        case Ok(configsPath) =>
          match SearchPath(viewer, [bepInExPath, "patchers"])
          case Err(e) => Err(e)
          case Ok(patchersPath) =>
            match SearchPath(viewer, [bepInExPath, "plugins"])
            case Err(e) => Err(e)
            case Ok(modsPath) => Ok(GatherPaths(root, configsPath, patchersPath, modsPath))
  }

  /**
   * The items a gather lists for one folder: one per file directly inside it, numbered from 0,
   * with its path relative to the game root; nothing when the folder does not exist.
   */
  function FolderItems(os: Os, disk: Disk, root: string, folder: string): (r: seq<ItemWithPath>)
    ensures !disk.DirectoryExists(folder) ==> r == []
    ensures forall i :: 0 <= i < |r| ==>
              r[i].id == i && disk.FileExists(r[i].fullOsPath) &&
              GetDirectoryName(os, r[i].fullOsPath) == Some(folder) &&
              r[i].relativeOsPath == GetRelativePath(os, root, r[i].fullOsPath)
  {
    if disk.DirectoryExists(folder) then FileItems(os, root, disk.FilesIn(os, folder), 0) else []
  }

  /** A profile after a successful gather: fresh configs and patchers, no mods, the rest kept. */
  function GatheredItem(os: Os, disk: Disk, g: GatherPaths, item: ProfileItem): ProfileItem {
    item.(configs := FolderItems(os, disk, g.root, g.configsPath),
          patchers := FolderItems(os, disk, g.root, g.patchersPath),
          mods := [])
  }

  /** `SearchPath(GetPathFrom(ManagerRoot, true), "profiles")`: the folder the archives live in. */
  function ArchiveFolder(viewer: Roots): (r: Result<string, Exception>)
    ensures viewer.rootPath == "" ==> r == Err(NullReference)
  {
    match GetPathFrom(viewer, ManagerRoot, true)
    case Err(e) => Err(e)
    case Ok(managerRoot) => SearchPath(viewer, [managerRoot, ProfileFolderName])
  }

  /** Where a profile's snapshot archive lives: `<name>.zip` in the archive folder. */
  function ZipPath(viewer: Roots, name: string): Result<string, Exception>
  {
    match ArchiveFolder(viewer)
    case Err(e) => Err(e)
    case Ok(folder) => SearchPath(viewer, [folder, name + ContentZipFileExtension])
  }

  /** Where a snapshot archive is first written: `<name>_TEMP.zip` in the archive folder. */
  function TempZipPath(viewer: Roots, name: string): Result<string, Exception>
  {
    match ArchiveFolder(viewer)
    case Err(e) => Err(e)
    case Ok(folder) => SearchPath(viewer, [folder, name + TempContentZipFileSuffix + ContentZipFileExtension])
  }

  /**
   * Everything a generation of a profile resolves through the viewer, in the order it resolves it:
   * the gather fails, or the archive path fails (the error escapes), or both resolve, with the
   * temp archive path that a storing generation resolves next.
   */
  datatype GenerationPlan =
    | GatherFailed
    | ZipFailed(paths: GatherPaths, error: Exception)
    | Planned(paths: GatherPaths, zip: string, temp: Result<string, Exception>)

  function PlanGeneration(viewer: Roots, name: string): (r: GenerationPlan)
    ensures viewer.rootPath == "" ==> r == GatherFailed
    ensures r.Planned? ==> ZipPath(viewer, name) == Ok(r.zip) && r.temp == TempZipPath(viewer, name)
  {
    match GatherFolders(viewer)
    case Err(_) => GatherFailed
    case Ok(g) =>
      match ZipPath(viewer, name)
      case Err(e) => ZipFailed(g, e)
      case Ok(zip) => Planned(g, zip, TempZipPath(viewer, name))
  }

  /**
   * The profile as a generation leaves it: unchanged when the gather fails; gathered otherwise,
   * and pointing at its archive (and its path relative to the game root) when that resolves.
   */
  function Generated(os: Os, disk: Disk, plan: GenerationPlan, item: ProfileItem): (r: ProfileItem)
    ensures r.id == item.id && r.profileName == item.profileName
    ensures r.isSelectedProfile == item.isSelectedProfile
    ensures plan.GatherFailed? ==> r == item
    ensures !plan.GatherFailed? ==>
              r.mods == [] &&
              r.configs == FolderItems(os, disk, plan.paths.root, plan.paths.configsPath) &&
              r.patchers == FolderItems(os, disk, plan.paths.root, plan.paths.patchersPath)
    ensures plan.ZipFailed? ==> r.fullOsPath == item.fullOsPath && r.relativeOsPath == item.relativeOsPath
    ensures plan.Planned? ==> r.fullOsPath == plan.zip && r.relativeOsPath == GetRelativePath(os, plan.paths.root, plan.zip)
  {
    match plan
    case GatherFailed => item
    case ZipFailed(g, _) => GatheredItem(os, disk, g, item)
    case Planned(g, zip, _) =>
      GatheredItem(os, disk, g, item).(fullOsPath := zip, relativeOsPath := GetRelativePath(os, g.root, zip))
  }

  // ---------------------------------------------------------------------------------------------
  // Writing a snapshot

  /**
   * The entries a snapshot writes for a list of tracked paths: one per non-empty path naming an
   * existing file, keyed by the path relative to the game root and holding that file's content.
   */
  function SnapshotEntries(os: Os, disk: Disk, root: string, paths: seq<string>): (r: seq<ArchiveEntry>)
    ensures |r| <= |paths|
  {
    if paths == [] then []
    else
      var init := SnapshotEntries(os, disk, root, paths[..|paths| - 1]);
      var p := paths[|paths| - 1];
      if p == "" || !disk.FileExists(p) then init
      else init + [ArchiveEntry(GetRelativePath(os, root, p), false, disk.Lookup(p).value.content)]
  }

  /** The entry a snapshot holds for the tracked file `p`. */
  function EntryFor(os: Os, disk: Disk, root: string, p: string): ArchiveEntry
    requires disk.FileExists(p)
  {
    ArchiveEntry(GetRelativePath(os, root, p), false, disk.Lookup(p).value.content)
  }

  /**
   * A snapshot holds an entry for exactly the tracked paths that are non-empty and name an
   * existing file, and no directory entry.
   */
  lemma {:induction false} SnapshotEntriesExact(os: Os, disk: Disk, root: string, paths: seq<string>)
    ensures forall e :: e in SnapshotEntries(os, disk, root, paths) ==>
              !e.isDirectory &&
              exists p :: p in paths && p != "" && disk.FileExists(p) && e == EntryFor(os, disk, root, p)
    ensures forall p :: p in paths && p != "" && disk.FileExists(p) ==>
              EntryFor(os, disk, root, p) in SnapshotEntries(os, disk, root, paths)
  {
    if paths != [] {
      var init := paths[..|paths| - 1];
      SnapshotEntriesExact(os, disk, root, init);
      assert paths == init + [paths[|paths| - 1]];
    }
  }

  /** Every entry of a profile's snapshot, configs first, then patchers, then mods. */
  function ItemEntries(os: Os, disk: Disk, root: string, item: ProfileItem): seq<ArchiveEntry> {
    SnapshotEntries(os, disk, root, ItemPaths(item.configs)) +
    SnapshotEntries(os, disk, root, ItemPaths(item.patchers)) +
    SnapshotEntries(os, disk, root, ModPaths(item.mods))
  }

  /** A file can be opened for writing at `p`: it has a parent directory and that directory exists. */
  predicate ParentExists(os: Os, disk: Disk, p: string) {
    GetDirectoryName(os, p).Some? && disk.DirectoryExists(GetDirectoryName(os, p).value)
  }

  /** The disk after a snapshot completed: written to `temp`, copied over `zip`, `temp` deleted. */
  function Stored(disk: Disk, temp: string, zip: string, entries: seq<ArchiveEntry>): Disk {
    disk.WriteFile(temp, ZipArchive(entries)).WriteFile(zip, ZipArchive(entries)).DeleteFile(temp)
  }

  /**
   * A completed snapshot leaves the archive at `zip` and no file at `temp`, and changes no other
   * file.
   */
  lemma StoredArchive(disk: Disk, temp: string, zip: string, entries: seq<ArchiveEntry>)
    requires temp != zip
    ensures Stored(disk, temp, zip, entries).Lookup(zip) == Some(FileRecord(zip, ZipArchive(entries), Stored(disk, temp, zip, entries).Lookup(zip).value.mode))
    ensures !Stored(disk, temp, zip, entries).FileExists(temp)
    ensures forall q :: q != temp && q != zip ==> Stored(disk, temp, zip, entries).Lookup(q) == disk.Lookup(q)
  {
    var d1 := disk.WriteFile(temp, ZipArchive(entries));
    var d2 := d1.WriteFile(zip, ZipArchive(entries));
    assert d2.DeleteFile(temp).Lookup(zip) == d2.Lookup(zip);
  }

  /**
   * What a generation does, given its plan, the profile `item0` and disk `disk0` it starts from,
   * and the profile `item1` and disk `disk1` it leaves: the profile becomes `Generated`; a failed
   * gather gives false and an unresolvable archive path its error, both changing nothing on disk;
   * without `generateNew` nothing is written and the result is true. With it, an unresolvable temp
   * path gives false and changes nothing; a completed snapshot gives true and leaves `Stored`; a
   * failed one gives false and leaves `disk0` without any file at the temp path. A missing folder
   * for either archive always fails.
   */
  ghost predicate GenerationEffect(os: Os, plan: GenerationPlan, generateNew: bool, item0: ProfileItem, disk0: Disk,
                                   r: Result<bool, Exception>, item1: ProfileItem, disk1: Disk)
  {
    item1 == Generated(os, disk0, plan, item0) &&
    (!generateNew ==> disk1 == disk0) &&
    match plan
    case GatherFailed => r == Ok(false) && disk1 == disk0
    case ZipFailed(_, e) => r == Err(e) && disk1 == disk0
    case Planned(g, zip, temp) =>
      if !generateNew then r == Ok(true)
      else match temp
        case Err(_) => r == Ok(false) && disk1 == disk0
        case Ok(t) =>
          r.Ok? &&
          (r.value ==> disk1 == Stored(disk0, t, zip, ItemEntries(os, disk0, g.root, item1))) &&
          (!r.value ==> disk1 == disk0.DeleteFile(t)) &&
          (!ParentExists(os, disk0, t) || !ParentExists(os, disk0, zip) ==> !r.value)
  }

  // ---------------------------------------------------------------------------------------------
  // Restoring a snapshot

  /** The state of an extraction pass: the disk, the directories wiped so far, and whether it failed. */
  datatype Extraction = Extraction(disk: Disk, wiped: seq<string>, failed: bool)

  /** `deletedDirectories.Exists(p => p.StartsWith(directory))`. */
  predicate AlreadyWiped(wiped: seq<string>, directory: string) {
    exists p :: p in wiped && StartsWith(p, directory)
  }

  /** Deleting `directory` with everything below it, creating it again, and recording it. */
  function Wipe(os: Os, x: Extraction, directory: string): Extraction {
    var cleared := if x.disk.DirectoryExists(directory) then x.disk.DeleteDirectory(os, directory) else x.disk;
    x.(disk := cleared.CreateDirectory(os, directory), wiped := x.wiped + [directory])
  }

  /**
   * One archive entry of a restore: directory entries and empty keys are skipped; an entry whose
   * target path does not resolve fails the pass; a target without a parent directory is skipped;
   * otherwise the parent is wiped unless a wiped directory starts with it, and the file is written.
   */
  function ExtractEntry(viewer: Roots, x: Extraction, entry: ArchiveEntry): (r: Extraction)
  {
    if x.failed || entry.isDirectory || entry.key == "" then x
    else match SearchPath(viewer, [entry.key])
      case Err(_) => x.(failed := true)
      case Ok(extractionPath) =>
        match GetDirectoryName(viewer.os, extractionPath)
        case None => x
        case Some(directory) =>
          if directory == "" then x
          else
            var y := if AlreadyWiped(x.wiped, directory) then x else Wipe(viewer.os, x, directory);
            y.(disk := y.disk.WriteFile(extractionPath, entry.content))
  }

  /** A whole restore pass over the entries in order. */
  function ExtractAll(viewer: Roots, x: Extraction, entries: seq<ArchiveEntry>): (r: Extraction)
  {
    if entries == [] then x
    else ExtractEntry(viewer, ExtractAll(viewer, x, entries[..|entries| - 1]), entries[|entries| - 1])
  }

  /** No directory wiped earlier starts with one wiped later. */
  predicate WipedOutermostFirst(wiped: seq<string>) {
    forall i, j :: 0 <= i < j < |wiped| ==> !StartsWith(wiped[i], wiped[j])
  }

  /**
   * A restore pass wipes each directory at most once: the wiped list only grows, and no directory
   * in it starts with (so none equals) a directory wiped after it.
   */
  lemma {:induction false} ExtractAllWipesOnce(viewer: Roots, x: Extraction, entries: seq<ArchiveEntry>)
    requires WipedOutermostFirst(x.wiped)
    ensures WipedOutermostFirst(ExtractAll(viewer, x, entries).wiped)
    ensures Distinct(ExtractAll(viewer, x, entries).wiped)
    ensures |x.wiped| <= |ExtractAll(viewer, x, entries).wiped|
    ensures ExtractAll(viewer, x, entries).wiped[..|x.wiped|] == x.wiped
  {
    if entries != [] {
      var y := ExtractAll(viewer, x, entries[..|entries| - 1]);
      ExtractAllWipesOnce(viewer, x, entries[..|entries| - 1]);
      var z := ExtractEntry(viewer, y, entries[|entries| - 1]);
      assert z.wiped == y.wiped || (exists dir :: z.wiped == y.wiped + [dir] && !AlreadyWiped(y.wiped, dir));
    }
    var w := ExtractAll(viewer, x, entries).wiped;
    forall i, j | 0 <= i < j < |w| ensures w[i] != w[j] {
      if w[i] == w[j] {
        assert StartsWith(w[i], w[j]);
      }
    }
  }

  /** Once a pass has failed, the remaining entries change nothing. */
  lemma {:induction false} FailedPassStops(viewer: Roots, x: Extraction, entries: seq<ArchiveEntry>, k: nat)
    requires k <= |entries| && ExtractAll(viewer, x, entries[..k]).failed
    ensures ExtractAll(viewer, x, entries) == ExtractAll(viewer, x, entries[..k])
    decreases |entries| - k
  {
    if k < |entries| {
      assert entries[..k + 1][..k] == entries[..k];
      FailedPassStops(viewer, x, entries, k + 1);
    } else {
      assert entries[..k] == entries;
    }
  }

  /** An entry written by a pass that has not failed holds the entry's content at its target. */
  lemma ExtractedEntryWritten(viewer: Roots, x: Extraction, entry: ArchiveEntry)
    requires !x.failed && !entry.isDirectory && entry.key != ""
    requires SearchPath(viewer, [entry.key]).Ok?
    requires GetDirectoryName(viewer.os, SearchPath(viewer, [entry.key]).value).Some?
    requires GetDirectoryName(viewer.os, SearchPath(viewer, [entry.key]).value).value != ""
    ensures var r := ExtractEntry(viewer, x, entry);
            !r.failed && r.disk.Lookup(SearchPath(viewer, [entry.key]).value).Some? &&
            r.disk.Lookup(SearchPath(viewer, [entry.key]).value).value.content == entry.content
  {
  }

  /** The entries of the archive at `zipPath`, if it names an existing, readable archive. */
  function ArchiveAt(disk: Disk, zipPath: string): (r: Option<seq<ArchiveEntry>>)
    ensures r.Some? ==> zipPath != "" && disk.FileExists(zipPath) && disk.Lookup(zipPath).value.content == ZipArchive(r.value)
    ensures zipPath == "" || !disk.FileExists(zipPath) ==> r.None?
  {
    if zipPath == "" || !disk.FileExists(zipPath) then None
    else match disk.Lookup(zipPath).value.content
      case ZipArchive(entries) => Some(entries)
      case Bytes(_) => None
  }

  /**
   * Everything a restore of a profile depends on outside the provider: the generation a skipped
   * restore runs, whether the game root is set, and the extraction pass over the profile's archive
   * (none when there is no readable archive).
   */
  datatype RestorePlan = RestorePlan(generation: GenerationPlan, rootSet: bool, pass: Option<Extraction>)

  function PlanRestore(viewer: Roots, disk: Disk, item: ProfileItem): (r: RestorePlan)
    ensures r.generation == PlanGeneration(viewer, item.profileName)
    ensures r.rootSet <==> viewer.rootPath != ""
    ensures r.pass.None? <==> ArchiveAt(disk, item.fullOsPath).None?
    ensures r.pass.Some? ==>
              r.pass.value == ExtractAll(viewer, Extraction(disk, [], false), ArchiveAt(disk, item.fullOsPath).value)
  {
    RestorePlan(
      PlanGeneration(viewer, item.profileName),
      viewer.rootPath != "",
      match ArchiveAt(disk, item.fullOsPath)
      case None => None
      case Some(entries) => Some(ExtractAll(viewer, Extraction(disk, [], false), entries)))
  }

  /**
   * What a restore of the profile at `index` does, from `profiles0`, `disk0` and last restored
   * name `last0` to `profiles1`, `disk1`, `last1`: the profile's name becomes the last restored one.
   * If it already was, the restore is skipped: the profile is regenerated without storing, the
   * result is true unless the archive path fails. Otherwise the list is kept; an unset game root
   * is a null-reference error; no readable archive gives false; else the extraction pass runs and
   * the result says whether it completed.
   */
  ghost predicate Restored(os: Os, plan: RestorePlan, profiles0: seq<ProfileItem>, disk0: Disk, last0: Option<string>,
                           index: nat, r: Result<bool, Exception>,
                           profiles1: seq<ProfileItem>, disk1: Disk, last1: Option<string>)
    requires index < |profiles0|
  {
    var name := profiles0[index].profileName;
    last1 == Some(name) &&
    if last0 == Some(name) then
      profiles1 == profiles0[index := Generated(os, disk0, plan.generation, profiles0[index])] &&
      disk1 == disk0 &&
      r == (if plan.generation.ZipFailed? then Err(plan.generation.error) else Ok(true))
    else
      profiles1 == profiles0 &&
      (!plan.rootSet ==> r == Err(NullReference) && disk1 == disk0) &&
      (plan.rootSet && plan.pass.None? ==> r == Ok(false) && disk1 == disk0) &&
      (plan.rootSet && plan.pass.Some? ==> r == Ok(!plan.pass.value.failed) && disk1 == plan.pass.value.disk)
  }

  /** The list with the current profile's selection flag cleared. */
  function ClearedSelection(profiles: seq<ProfileItem>, current: Current): (r: seq<ProfileItem>)
    ensures |r| == |profiles|
    ensures forall i :: 0 <= i < |profiles| ==>
              r[i] == if current == InList(i) then profiles[i].(isSelectedProfile := false) else profiles[i]
  {
    if current.InList? && current.index < |profiles| then
      profiles[current.index := profiles[current.index].(isSelectedProfile := false)]
    else profiles
  }

  /** The current profile with its selection flag cleared, when a rescan dropped it from the list. */
  function ClearedCurrent(current: Current): Current {
    if current.Detached? then Detached(current.item.(isSelectedProfile := false)) else current
  }

  /** The list once the profile at `index` replaces the current one as the selected profile. */
  function Selected(profiles: seq<ProfileItem>, current: Current, index: nat): (r: seq<ProfileItem>)
    requires index < |profiles|
    ensures |r| == |profiles|
  {
    var cleared := ClearedSelection(profiles, current);
    cleared[index := cleared[index].(isSelectedProfile := true)]
  }

  /** A current profile outside the list has no flag in it to clear. */
  lemma SelectedWhenNotInList(profiles: seq<ProfileItem>, current: Current, index: nat)
    requires index < |profiles| && !current.InList?
    ensures Selected(profiles, current, index) == Selected(profiles, NoCurrent, index)
  {
    assert ClearedSelection(profiles, current) == profiles == ClearedSelection(profiles, NoCurrent);
  }

  /** Moving the selection renames nothing. */
  lemma SelectedKeepsNames(profiles: seq<ProfileItem>, current: Current, index: nat)
    requires index < |profiles|
    ensures Names(Selected(profiles, current, index)) == Names(profiles)
  {
    var r := Selected(profiles, current, index);
    forall i | 0 <= i < |profiles|
      ensures r[i].profileName == profiles[i].profileName
    {
      assert ClearedSelection(profiles, current)[i].profileName == profiles[i].profileName;
    }
  }

  /** A restore, skipped or not, renames nothing in the list. */
  lemma RestoredKeepsNames(os: Os, plan: RestorePlan, profiles0: seq<ProfileItem>, disk0: Disk, last0: Option<string>,
                           index: nat, r: Result<bool, Exception>,
                           profiles1: seq<ProfileItem>, disk1: Disk, last1: Option<string>)
    requires index < |profiles0|
    requires Restored(os, plan, profiles0, disk0, last0, index, r, profiles1, disk1, last1)
    ensures Names(profiles1) == Names(profiles0)
  {
    if last0 == Some(profiles0[index].profileName) {
      assert Names(profiles1)[index] == Names(profiles0)[index];
    }
  }

  // ---------------------------------------------------------------------------------------------
  // Rebuilding the list

  /**
   * The list the listing loop builds from `names` on an unchanging disk: the profile called
   * `names[i]` at position `i`, numbered `i`, unselected, and generated without storing.
   */
  function LoadedProfiles(os: Os, disk: Disk, viewer: Roots, names: seq<string>): (r: seq<ProfileItem>)
    ensures |r| == |names| && Names(r) == names
    ensures forall i :: 0 <= i < |r| ==> r[i].id == i && !r[i].isSelectedProfile
  {
    seq(|names|, i requires 0 <= i < |names| =>
          Generated(os, disk, PlanGeneration(viewer, names[i]), NewProfileItem(i, names[i])))
  }

  /** Listing one more name appends its generated profile. */
  lemma LoadedProfilesStep(os: Os, disk: Disk, viewer: Roots, names: seq<string>, i: nat)
    requires i < |names|
    ensures LoadedProfiles(os, disk, viewer, names[..i + 1]) ==
            LoadedProfiles(os, disk, viewer, names[..i]) +
            [Generated(os, disk, PlanGeneration(viewer, names[i]), NewProfileItem(i, names[i]))]
  {
    assert names[..i + 1][..i] == names[..i];
  }

  /**
   * The outcome of the listing loop over `names` on `disk`: every profile loaded and true, or the
   * error of the first generation that throws, with the loop stopped after appending that profile.
   */
  ghost predicate ListingOutcome(os: Os, viewer: Roots, disk: Disk, names: seq<string>,
                         r: Result<bool, Exception>, profiles1: seq<ProfileItem>)
  {
    (r.Ok? ==> r == Ok(true) && profiles1 == LoadedProfiles(os, disk, viewer, names)) &&
    (r.Err? ==> 0 < |profiles1| <= |names| &&
                profiles1 == LoadedProfiles(os, disk, viewer, names[..|profiles1|]) &&
                PlanGeneration(viewer, names[|profiles1| - 1]).ZipFailed? &&
                r == Err(PlanGeneration(viewer, names[|profiles1| - 1]).error))
  }

  /**
   * What rebuilding the list from `folder` does, from `disk0`: the folder is created first. With
   * files in it, the disk is left as that, and the listing loop runs over the files' names in
   * file-name order.
   * With no file, the list is the default profile, generated with storing.
   */
  ghost predicate Rescanned(os: Os, viewer: Roots, disk0: Disk, folder: string,
                            r: Result<bool, Exception>, profiles1: seq<ProfileItem>, disk1: Disk)
  {
    var created := disk0.CreateDirectory(os, folder);
    var names := RescannedNames(os, disk0, folder);
    if disk0.FilesIn(os, folder) == [] then
      |profiles1| == 1 &&
      GenerationEffect(os, PlanGeneration(viewer, DefaultProfileName), true, DefaultProfileItem(), created,
                       r, profiles1[0], disk1)
    else
      disk1 == created && ListingOutcome(os, viewer, created, names, r, profiles1)
  }

  /**
   * The outcome of rebuilding from the folder's files, sorted by name, is the rescan's: the
   * listing loop's when there are files, the default profile's generation when there are none.
   */
  lemma RescannedFromRebuild(os: Os, viewer: Roots, disk0: Disk, folder: string, created: Disk, files: seq<string>,
                             r: Result<bool, Exception>, profiles1: seq<ProfileItem>, disk1: Disk)
    requires created == disk0.CreateDirectory(os, folder)
    requires files == SortByName(os, created.FilesIn(os, folder))
    requires files != [] ==> disk1 == created && ListingOutcome(os, viewer, created, FileNames(os, files), r, profiles1)
    requires files == [] ==>
               |profiles1| == 1 && Names(profiles1) == [DefaultProfileName] &&
               GenerationEffect(os, PlanGeneration(viewer, DefaultProfileName), true, DefaultProfileItem(),
                                created, r, profiles1[0], disk1)
    ensures Rescanned(os, viewer, disk0, folder, r, profiles1, disk1)
    ensures r.Ok? ==> |profiles1| > 0
  {
    assert created.FilesIn(os, folder) == disk0.FilesIn(os, folder);
    if files == [] {
      assert |multiset(disk0.FilesIn(os, folder))| == 0;
    } else {
      assert RescannedNames(os, disk0, folder) == FileNames(os, files);
    }
  }

  /**
   * What `UpdateProfilesData` does once the list is rebuilt (`r0`, `rescanned`, `disk0`): a result
   * other than true is returned as it is; otherwise the profile `RescanSelection` picks becomes
   * current and the only selected one, and is restored.
   */
  ghost predicate Activated(os: Os, viewer: Roots, previousId: Option<int>, defaultSelection: int,
                            rescanned: seq<ProfileItem>, disk0: Disk, last0: Option<string>, r0: Result<bool, Exception>,
                            r: Result<bool, Exception>, profiles1: seq<ProfileItem>, current1: Current,
                            disk1: Disk, last1: Option<string>)
  {
    if r0 != Ok(true) then
      r == r0 && profiles1 == rescanned && disk1 == disk0 && last1 == last0
    else
      var index := RescanSelection(previousId, |rescanned|, defaultSelection);
      0 <= index < |rescanned| && current1 == InList(index) &&
      Restored(os, PlanRestore(viewer, disk0, Selected(rescanned, NoCurrent, index)[index]),
               Selected(rescanned, NoCurrent, index), disk0, last0, index, r, profiles1, disk1, last1)
  }

  /**
   * What `UpdateProfilesData` does once the profiles folder has resolved: the list is rebuilt
   * from `folder` as `Rescanned` says, and then activated as `Activated` says.
   */
  ghost predicate Updated(os: Os, viewer: Roots, disk0: Disk, folder: string, previousId: Option<int>,
                          defaultSelection: int, last0: Option<string>, r: Result<bool, Exception>,
                          profiles1: seq<ProfileItem>, current1: Current, disk1: Disk, last1: Option<string>)
  {
    exists rescanned: seq<ProfileItem>, scannedDisk: Disk, r0: Result<bool, Exception> ::
      Rescanned(os, viewer, disk0, folder, r0, rescanned, scannedDisk) &&
      Activated(os, viewer, previousId, defaultSelection, rescanned, scannedDisk, last0, r0,
                r, profiles1, current1, disk1, last1)
  }

  /** The witnesses of `Updated`: the rebuilt list, the disk after the rebuild, and its result. */
  lemma UpdatedFrom(os: Os, viewer: Roots, disk0: Disk, folder: string, previousId: Option<int>,
                    defaultSelection: int, last0: Option<string>, rescanned: seq<ProfileItem>, scannedDisk: Disk,
                    r0: Result<bool, Exception>, r: Result<bool, Exception>,
                    profiles1: seq<ProfileItem>, current1: Current, disk1: Disk, last1: Option<string>)
    requires Rescanned(os, viewer, disk0, folder, r0, rescanned, scannedDisk)
    requires Activated(os, viewer, previousId, defaultSelection, rescanned, scannedDisk, last0, r0,
                       r, profiles1, current1, disk1, last1)
    ensures Updated(os, viewer, disk0, folder, previousId, defaultSelection, last0, r, profiles1, current1, disk1, last1)
  { }

  /**
   * `SetActiveProfile` on the selected index of a list with no profile current in it is the
   * activation of a rebuild that gave true.
   */
  lemma ActivatedBySelection(os: Os, viewer: Roots, previousId: Option<int>, defaultSelection: int,
                             rescanned: seq<ProfileItem>, current0: Current, scannedDisk: Disk, last0: Option<string>,
                             index: nat, r: Result<bool, Exception>,
                             profiles1: seq<ProfileItem>, current1: Current, disk1: Disk, last1: Option<string>)
    requires !current0.InList?
    requires index == RescanSelection(previousId, |rescanned|, defaultSelection) && index < |rescanned|
    requires current1 == InList(index)
    requires Restored(os, PlanRestore(viewer, scannedDisk, Selected(rescanned, current0, index)[index]),
                      Selected(rescanned, current0, index), scannedDisk, last0, index, r, profiles1, disk1, last1)
    ensures Activated(os, viewer, previousId, defaultSelection, rescanned, scannedDisk, last0, Ok(true),
                      r, profiles1, current1, disk1, last1)
  {
    SelectedWhenNotInList(rescanned, current0, index);
  }

  /** A rebuild that does not throw lists the rescanned names. */
  lemma {:induction false} RescannedListsNames(os: Os, viewer: Roots, disk0: Disk, folder: string,
                                             r: Result<bool, Exception>, profiles1: seq<ProfileItem>, disk1: Disk)
    requires Rescanned(os, viewer, disk0, folder, r, profiles1, disk1) && r.Ok?
    ensures Names(profiles1) == RescannedNames(os, disk0, folder)
  {
    if disk0.FilesIn(os, folder) == [] {
      assert Names(profiles1)[0] == DefaultProfileName;
    }
  }

  /**
   * After `UpdateProfilesData`, unless it throws, the list carries the rescanned names; when it
   * gives true, the profile `RescanSelection` picks is current.
   */
  lemma UpdatedLists(os: Os, viewer: Roots, disk0: Disk, folder: string, previousId: Option<int>,
                     defaultSelection: int, last0: Option<string>, r: Result<bool, Exception>,
                     profiles1: seq<ProfileItem>, current1: Current, disk1: Disk, last1: Option<string>)
    requires Updated(os, viewer, disk0, folder, previousId, defaultSelection, last0, r, profiles1, current1, disk1, last1)
    ensures r.Ok? ==> Names(profiles1) == RescannedNames(os, disk0, folder)
    ensures r == Ok(true) ==> current1 == InList(RescanSelection(previousId, |profiles1|, defaultSelection))
  {
    var rescanned, scannedDisk, r0 :|
      Rescanned(os, viewer, disk0, folder, r0, rescanned, scannedDisk) &&
      Activated(os, viewer, previousId, defaultSelection, rescanned, scannedDisk, last0, r0,
                r, profiles1, current1, disk1, last1);
    if r0 != Ok(true) {
      if r.Ok? {
        RescannedListsNames(os, viewer, disk0, folder, r0, rescanned, scannedDisk);
      }
    } else {
      var index := RescanSelection(previousId, |rescanned|, defaultSelection);
      RescannedListsNames(os, viewer, disk0, folder, r0, rescanned, scannedDisk);
      RestoredKeepsNames(os, PlanRestore(viewer, scannedDisk, Selected(rescanned, NoCurrent, index)[index]),
                         Selected(rescanned, NoCurrent, index), scannedDisk, last0, index, r, profiles1, disk1, last1);
      SelectedKeepsNames(rescanned, NoCurrent, index);
    }
  }

  /**
   * What `AddProfile` does for a free name: a profile with the next id is appended and generated
   * with its snapshot stored; an error from that generation is returned with nothing activated,
   * and otherwise, whatever its result, the new profile is selected and restored.
   */
  ghost predicate Added(os: Os, viewer: Roots, profiles0: seq<ProfileItem>, current0: Current, disk0: Disk,
                        last0: Option<string>, name: string, r: Result<bool, Exception>,
                        profiles1: seq<ProfileItem>, current1: Current, disk1: Disk, last1: Option<string>)
  {
    exists added: ProfileItem, stored: Disk, r0: Result<bool, Exception> ::
      GenerationEffect(os, PlanGeneration(viewer, name), true, NewProfileItem(|profiles0|, name), disk0, r0, added, stored) &&
      (r0.Err? ==> r == r0 && profiles1 == profiles0 + [added] && disk1 == stored &&
                   current1 == current0 && last1 == last0) &&
      (r0.Ok? ==> current1 == InList(|profiles0|) &&
                  Restored(os, PlanRestore(viewer, stored, Selected(profiles0 + [added], current0, |profiles0|)[|profiles0|]),
                           Selected(profiles0 + [added], current0, |profiles0|), stored, last0, |profiles0|,
                           r, profiles1, disk1, last1))
  }

  /** The witnesses of `Added`: the generated profile, the disk after it, and its result. */
  lemma AddedFrom(os: Os, viewer: Roots, profiles0: seq<ProfileItem>, current0: Current, disk0: Disk,
                  last0: Option<string>, name: string, added: ProfileItem, stored: Disk, r0: Result<bool, Exception>,
                  r: Result<bool, Exception>, profiles1: seq<ProfileItem>, current1: Current, disk1: Disk, last1: Option<string>)
    requires GenerationEffect(os, PlanGeneration(viewer, name), true, NewProfileItem(|profiles0|, name), disk0, r0, added, stored)
    requires r0.Err? ==> r == r0 && profiles1 == profiles0 + [added] && disk1 == stored &&
                         current1 == current0 && last1 == last0
    requires r0.Ok? ==> current1 == InList(|profiles0|) &&
                        Restored(os, PlanRestore(viewer, stored, Selected(profiles0 + [added], current0, |profiles0|)[|profiles0|]),
                                 Selected(profiles0 + [added], current0, |profiles0|), stored, last0, |profiles0|,
                                 r, profiles1, disk1, last1)
    ensures Added(os, viewer, profiles0, current0, disk0, last0, name, r, profiles1, current1, disk1, last1)
  { }

  /**
   * A profile archive `DeleteProfile` removes: a non-empty path to an existing file, with the game
   * root set and a folder named `.gmp` among the full path's ancestors before the game root's parent.
   */
  predicate Deletable(os: Os, disk: Disk, rootPath: string, path: string) {
    path != "" && disk.FileExists(path) && rootPath != "" &&
    FoundBeforeLimit(AncestorNames(os, GetFullPath(os, path)), AppRootFolder, GameRootParentName(os, rootPath))
  }

  // ---------------------------------------------------------------------------------------------

  class ProfileProvider {
    const viewer: PlusFolderViewer
    /** `_availableProfiles`. */
    var profiles: seq<ProfileItem>
    /** `_currentProfileItem`. */
    var current: Current
    /** The name of `_lastUnzippedProfileItem`, the only part of it that is read. */
    var lastUnzipped: Option<string>
    /** The file system the provider reads and writes. */
    var disk: Disk
    /** How many times `OnProfilesUpdate` has been raised. */
    var updateEvents: nat

    /**
     * Ids are positions in the list; only the current profile can carry the selection flag, so at
     * most one profile does; a current profile dropped by a rescan keeps a non-negative id.
     */
    predicate Valid()
      reads this`profiles, this`current
    {
      (current.InList? ==> current.index < |profiles|) &&
      (current.Detached? ==> current.item.id >= 0) &&
      (forall i :: 0 <= i < |profiles| ==> profiles[i].id == i) &&
      (forall i :: 0 <= i < |profiles| && profiles[i].isSelectedProfile ==> current == InList(i))
    }

    constructor(viewer: PlusFolderViewer, disk: Disk)
      ensures this.viewer == viewer && this.disk == disk
      ensures profiles == [] && current == NoCurrent && lastUnzipped == None && updateEvents == 0
      ensures Valid()
    {
      this.viewer := viewer;
      this.disk := disk;
      profiles := [];
      current := NoCurrent;
      lastUnzipped := None;
      updateEvents := 0;
    }

    /** The id the source reads off `_currentProfileItem`, if there is one. */
    function CurrentId(): Option<int>
      reads this`current
    {
      match current
      case NoCurrent => None
      case InList(i) => Some(i)
      case Detached(item) => Some(item.id)
    }

    /**
     * `GetActiveProfile`: the index of the current profile in the list, -1 when a rescan dropped
     * it, and a null-reference error when there is none.
     */
    function GetActiveProfile(): (r: Result<int, Exception>)
      reads this`current
      ensures r.Err? <==> current == NoCurrent
      ensures r.Err? ==> r.error == NullReference
      ensures r.Ok? ==> r.value >= -1 && (r.value >= 0 <==> current.InList?)
      ensures current.InList? ==> r == Ok(current.index)
    {
      match current
      case NoCurrent => Err(NullReference)
      case InList(i) => Ok(i as int)
      case Detached(_) => Ok(-1)
    }

    /** `GetInstanceActiveProfile`: the current profile, when it is in the list. */
    function GetInstanceActiveProfile(): (r: Result<ProfileItem, Exception>)
      reads this`profiles, this`current
      requires Valid()
      ensures r.Ok? <==> current.InList?
      ensures r.Ok? ==> r.value == profiles[current.index]
      ensures current == NoCurrent ==> r == Err(NullReference)
      ensures current.Detached? ==> r == Err(ArgumentOutOfRange)
    {
      match GetActiveProfile()
      case Err(e) => Err(e)
      case Ok(i) => if 0 <= i < |profiles| then Ok(profiles[i]) else Err(ArgumentOutOfRange)
    }

    /** The lists a successful gather gives the profile: configs and patchers listed afresh, no mods. */
    method ListGathered(g: GatherPaths, item: ProfileItem) returns (updated: ProfileItem)
      ensures updated == GatheredItem(viewer.os, disk, g, item)
    {
      var configs: seq<ItemWithPath> := [];
      if disk.DirectoryExists(g.configsPath) {
        configs := RetrieveInto(viewer.os, disk, g.root, [], g.configsPath);
      }
      var patchers: seq<ItemWithPath> := [];
      if disk.DirectoryExists(g.patchersPath) {
        patchers := RetrieveInto(viewer.os, disk, g.root, [], g.patchersPath);
      }
      return item.(configs := configs, patchers := patchers, mods := []);
    }

    /**
     * `GatherProfileFolderInformation`: on success the profile's configs and patchers are listed
     * afresh from the game's BepInEx folders and its mods cleared. Every failure happens while a
     * path resolves, and the catch block puts back the three lists the profile had, so the profile
     * changes only once all four paths have resolved.
     */
    method GatherProfileFolderInformation(item: ProfileItem) returns (ok: bool, updated: ProfileItem)
      ensures ok <==> GatherFolders(viewer.State()).Ok?
      ensures !ok ==> updated == item
      ensures ok ==> updated == GatheredItem(viewer.os, disk, GatherFolders(viewer.State()).value, item)
    {
      var gathered := GatherFolders(viewer.State());
      if gathered.Err? {
        return false, item;
      }
      updated := ListGathered(gathered.value, item);
      ok := true;
    }

    /**
     * One write of a snapshot loop: the archive at `temp` rewritten with `entry` added, unless the
     * write fails (an I/O error), which leaves it as it was.
     */
    method AppendEntry(temp: string, source: Disk, written: seq<ArchiveEntry>, entry: ArchiveEntry) returns (failed: bool)
      requires disk == source.WriteFile(temp, ZipArchive(written))
      modifies this`disk
      ensures failed ==> disk == old(disk)
      ensures !failed ==> disk == source.WriteFile(temp, ZipArchive(written + [entry]))
    {
      failed :| true;
      if !failed {
        WrittenTwice(source, temp, ZipArchive(written), ZipArchive(written + [entry]));
        disk := disk.WriteFile(temp, ZipArchive(written + [entry]));
      }
    }

    /**
     * One of the three write loops of a snapshot: an entry for each non-empty tracked path naming
     * an existing file, the archive at `temp` rewritten after each. A failed write ends the loop
     * with the entries written so far.
     */
    method WriteEntries(paths: seq<string>, root: string, temp: string, source: Disk, entries: seq<ArchiveEntry>)
      returns (written: seq<ArchiveEntry>, failed: bool)
      requires disk == source.WriteFile(temp, ZipArchive(entries))
      modifies this`disk
      ensures disk == source.WriteFile(temp, ZipArchive(written))
      ensures !failed ==> written == entries + SnapshotEntries(viewer.os, source, root, paths)
    {
      written, failed := entries, false;
      for i := 0 to |paths|
        invariant disk == source.WriteFile(temp, ZipArchive(written))
        invariant written == entries + SnapshotEntries(viewer.os, source, root, paths[..i])
      {
        assert paths[..i + 1][..i] == paths[..i];
        var fullPath := paths[i];
        if fullPath == "" || !source.FileExists(fullPath) {
          continue;
        }
        var entry := ArchiveEntry(GetRelativePath(viewer.os, root, fullPath), false, source.Lookup(fullPath).value.content);
        failed := AppendEntry(temp, source, written, entry);
        if failed {
          return;
        }
        written := written + [entry];
      }
      assert paths[..|paths|] == paths;
    }

    /**
     * The storing half of a generation (its inner try/finally): the snapshot of `generated` is
     * written to `temp`, copied over `zip` and `temp` deleted; on a failure `temp` is deleted.
     */
    method WriteSnapshot(generated: ProfileItem, rootPath: string, temp: string, zip: string) returns (success: bool)
      modifies this`disk
      ensures success ==> disk == Stored(old(disk), temp, zip, ItemEntries(viewer.os, old(disk), rootPath, generated))
      ensures !success ==> disk == old(disk).DeleteFile(temp)
      ensures !ParentExists(viewer.os, old(disk), temp) || !ParentExists(viewer.os, old(disk), zip) ==> !success
    {
      var source := disk;
      success := false;
      if ParentExists(viewer.os, disk, temp) {
        disk := disk.WriteFile(temp, ZipArchive([]));
        ghost var configEntries := SnapshotEntries(viewer.os, source, rootPath, ItemPaths(generated.configs));
        ghost var patcherEntries := SnapshotEntries(viewer.os, source, rootPath, ItemPaths(generated.patchers));
        var entries, failed := WriteEntries(ItemPaths(generated.configs), rootPath, temp, source, []);
        assert !failed ==> entries == configEntries;
        if !failed {
          entries, failed := WriteEntries(ItemPaths(generated.patchers), rootPath, temp, source, entries);
        }
        assert !failed ==> entries == configEntries + patcherEntries;
        if !failed {
          entries, failed := WriteEntries(ModPaths(generated.mods), rootPath, temp, source, entries);
        }
        if !failed && ParentExists(viewer.os, disk, zip) {
          assert entries == ItemEntries(viewer.os, source, rootPath, generated);
          assert disk.Lookup(temp).value.content == ZipArchive(entries);
          // File.Copy(temp, zip, overwrite: true), then File.Delete(temp).
          disk := disk.WriteFile(zip, disk.Lookup(temp).value.content);
          disk := disk.DeleteFile(temp);
          success := true;
        } else {
          WrittenThenDeleted(source, temp, ZipArchive(entries));
        }
      } else if !disk.FileExists(temp) {
        DeleteAbsent(disk, temp);
      }
      if !success && disk.FileExists(temp) {
        disk := disk.DeleteFile(temp);
      }
    }

    /** Puts back a profile the provider changed in place: same id, name and selection flag. */
    method WriteBack(index: nat, item: ProfileItem)
      requires Valid() && index < |profiles|
      requires item.id == profiles[index].id && item.profileName == profiles[index].profileName
      requires item.isSelectedProfile == profiles[index].isSelectedProfile
      modifies this`profiles
      ensures profiles == old(profiles)[index := item]
      ensures Names(profiles) == Names(old(profiles))
      ensures forall i :: 0 <= i < |profiles| ==> profiles[i].isSelectedProfile == old(profiles[i].isSelectedProfile)
      ensures Valid()
    {
      profiles := profiles[index := item];
    }

    /**
     * `GenerateProfileDataFromProfileItem` on a profile object, as `GenerationEffect` states it:
     * the profile is gathered, pointed at its archive, and with `generateNewContentStorage` its
     * snapshot is written.
     */
    method GenerateItem(item: ProfileItem, generateNewContentStorage: bool) returns (r: Result<bool, Exception>, generated: ProfileItem)
      modifies this`disk
      ensures GenerationEffect(viewer.os, PlanGeneration(viewer.State(), item.profileName),
                               generateNewContentStorage, item, old(disk), r, generated, disk)
    {
      var ok, gathered := GatherProfileFolderInformation(item);
      match PlanGeneration(viewer.State(), item.profileName)
      case GatherFailed =>
        return Ok(false), gathered;
      case ZipFailed(_, e) =>
        return Err(e), gathered;
      case Planned(g, zip, temp) =>
        generated := gathered.(fullOsPath := zip, relativeOsPath := GetRelativePath(viewer.os, g.root, zip));
        if !generateNewContentStorage {
          return Ok(true), generated;
        }
        if temp.Err? {
          return Ok(false), generated;
        }
        var success := WriteSnapshot(generated, g.root, temp.value, zip);
        return Ok(success), generated;
    }

    /** `GenerateProfileDataFromProfileItem` for the profile at `index`, which it updates in place. */
    method GenerateProfileData(index: nat, generateNewContentStorage: bool) returns (r: Result<bool, Exception>)
      requires Valid() && index < |profiles|
      modifies this`profiles, this`disk
      ensures |profiles| == old(|profiles|) && profiles == old(profiles)[index := profiles[index]]
      ensures Names(profiles) == Names(old(profiles))
      ensures forall i :: 0 <= i < |profiles| ==> profiles[i].isSelectedProfile == old(profiles[i].isSelectedProfile)
      ensures GenerationEffect(viewer.os, old(PlanGeneration(viewer.State(), profiles[index].profileName)),
                               generateNewContentStorage, old(profiles[index]), old(disk), r, profiles[index], disk)
      ensures Valid()
    {
      var generated;
      r, generated := GenerateItem(profiles[index], generateNewContentStorage);
      WriteBack(index, generated);
    }

    /**
     * The extraction loop of `UnzipAndDistributeProfileContent`: each file entry of the archive is
     * written to its path under the game root, its directory wiped and recreated first unless a
     * wiped directory starts with it; a key that does not resolve ends the pass as a failure.
     */
    method ExtractArchive(view: Roots, entries: seq<ArchiveEntry>) returns (completed: bool)
      modifies this`disk
      ensures disk == ExtractAll(view, Extraction(old(disk), [], false), entries).disk
      ensures completed <==> !ExtractAll(view, Extraction(old(disk), [], false), entries).failed
    {
      ghost var start := Extraction(disk, [], false);
      var deletedDirectories: seq<string> := [];
      for i := 0 to |entries|
        invariant ExtractAll(view, start, entries[..i]) == Extraction(disk, deletedDirectories, false)
      {
        assert entries[..i + 1][..i] == entries[..i];
        var entry := entries[i];
        if entry.isDirectory || entry.key == "" {
          continue;
        }
        var extractionPath := SearchPath(view, [entry.key]);
        if extractionPath.Err? {
          FailedPassStops(view, start, entries, i + 1);
          return false;
        }
        var directory := GetDirectoryName(view.os, extractionPath.value);
        if directory.None? || directory.value == "" {
          continue;
        }
        if !AlreadyWiped(deletedDirectories, directory.value) {
          if disk.DirectoryExists(directory.value) {
            disk := disk.DeleteDirectory(view.os, directory.value);
          }
          disk := disk.CreateDirectory(view.os, directory.value);
          deletedDirectories := deletedDirectories + [directory.value];
        }
        disk := disk.WriteFile(extractionPath.value, entry.content);
      }
      assert entries[..|entries|] == entries;
      return true;
    }

    /**
     * `UnzipAndDistributeProfileContent` for the profile at `index`, as `Restored` states it: skipped
     * (regenerating without storing) when it is the last restored profile, else the profile's
     * archive is extracted over the game folder.
     */
    method UnzipAndDistributeProfileContent(index: nat) returns (r: Result<bool, Exception>)
      requires Valid() && index < |profiles|
      modifies this`profiles, this`disk, this`lastUnzipped
      ensures Restored(viewer.os, old(PlanRestore(viewer.State(), disk, profiles[index])), old(profiles), old(disk),
                       old(lastUnzipped), index, r, profiles, disk, lastUnzipped)
      ensures Names(profiles) == Names(old(profiles))
      ensures forall i :: 0 <= i < |profiles| ==> profiles[i].isSelectedProfile == old(profiles[i].isSelectedProfile)
      ensures Valid()
    {
      var item := profiles[index];
      if lastUnzipped == Some(item.profileName) {
        var generated := GenerateProfileData(index, false);
        if generated.Err? {
          return Err(generated.error);
        }
        return Ok(true);
      }
      lastUnzipped := Some(item.profileName);
      var rootPath := GetGameRootPath(viewer.State());
      if rootPath.Err? {
        return Err(rootPath.error);
      }
      var archive := ArchiveAt(disk, item.fullOsPath);
      if archive.None? {
        // No file at the archive path, or one that does not open as an archive (caught).
        return Ok(false);
      }
      var completed := ExtractArchive(viewer.State(), archive.value);
      return Ok(completed);
    }

    /** The first step of `SetActiveProfile`: the previous current profile loses its selection flag. */
    method ClearSelection()
      requires Valid()
      modifies this`profiles, this`current
      ensures profiles == ClearedSelection(old(profiles), old(current))
      ensures current == ClearedCurrent(old(current))
      ensures Valid()
      ensures forall i :: 0 <= i < |profiles| ==> !profiles[i].isSelectedProfile
    {
      match current {
        case InList(i) =>
          profiles := profiles[i := profiles[i].(isSelectedProfile := false)];
        case Detached(item) =>
          current := Detached(item.(isSelectedProfile := false));
        case NoCurrent =>
      }
    }

    /**
     * The selection steps of `SetActiveProfile` for an index in the list: the previous current
     * profile loses its flag, the profile at `index` becomes current and the only selected one,
     * and the update event is raised.
     */
    method Select(index: nat)
      requires Valid() && index < |profiles|
      modifies this`profiles, this`current, this`updateEvents
      ensures profiles == Selected(old(profiles), old(current), index)
      ensures Names(profiles) == Names(old(profiles))
      ensures forall i :: 0 <= i < |profiles| ==> (profiles[i].isSelectedProfile <==> i == index)
      ensures current == InList(index) && updateEvents == old(updateEvents) + 1
      ensures Valid()
    {
      ClearSelection();
      current := InList(index);
      profiles := profiles[index := profiles[index].(isSelectedProfile := true)];
      updateEvents := updateEvents + 1;
    }

    /**
     * `SetActiveProfile`: the current profile loses its selection flag; an index outside the list
     * is an argument-out-of-range error; otherwise the profile at `profileIndex` becomes current
     * and the only selected one, the update event is raised, and the profile is restored.
     */
    method SetActiveProfile(profileIndex: int) returns (r: Result<bool, Exception>)
      requires Valid()
      modifies this`profiles, this`current, this`disk, this`lastUnzipped, this`updateEvents
      ensures Valid()
      ensures Names(profiles) == Names(old(profiles))
      ensures !(0 <= profileIndex < |old(profiles)|) ==>
                r == Err(ArgumentOutOfRange) && profiles == ClearedSelection(old(profiles), old(current)) &&
                current == ClearedCurrent(old(current)) &&
                disk == old(disk) && lastUnzipped == old(lastUnzipped) && updateEvents == old(updateEvents)
      ensures 0 <= profileIndex < |old(profiles)| ==>
                current == InList(profileIndex) && updateEvents == old(updateEvents) + 1 &&
                Restored(viewer.os, old(PlanRestore(viewer.State(), disk, Selected(profiles, current, profileIndex)[profileIndex])),
                         old(Selected(profiles, current, profileIndex)), old(disk), old(lastUnzipped),
                         profileIndex, r, profiles, disk, lastUnzipped)
      ensures forall i :: 0 <= i < |profiles| ==>
                (profiles[i].isSelectedProfile <==> 0 <= profileIndex < |profiles| && i == profileIndex)
    {
      if profileIndex < 0 || profileIndex >= |profiles| {
        ClearSelection();
        return Err(ArgumentOutOfRange);
      }
      Select(profileIndex);
      r := UnzipAndDistributeProfileContent(profileIndex);
    }

    /**
     * One step of the listing loop: a profile named after `files[i]` appended with the next id and
     * generated without storing; the disk does not change.
     */
    method LoadProfile(files: seq<string>, i: nat) returns (r: Result<bool, Exception>)
      requires Valid() && !current.InList?
      requires i < |files| && profiles == LoadedProfiles(viewer.os, disk, viewer.State(), FileNames(viewer.os, files)[..i])
      modifies this`profiles, this`disk
      ensures Valid() && !current.InList? && disk == old(disk)
      ensures profiles == LoadedProfiles(viewer.os, disk, viewer.State(), FileNames(viewer.os, files)[..i + 1])
      ensures r.Err? <==> PlanGeneration(viewer.State(), FileNames(viewer.os, files)[i]).ZipFailed?
      ensures r.Err? ==> r.error == PlanGeneration(viewer.State(), FileNames(viewer.os, files)[i]).error
    {
      ghost var names := FileNames(viewer.os, files);
      profiles := profiles + [NewProfileItem(|profiles|, GetFileNameWithoutExtension(viewer.os, files[i]))];
      r := GenerateProfileData(|profiles| - 1, false);
      LoadedProfilesStep(viewer.os, disk, viewer.State(), names, i);
    }

    /**
     * The listing loop of `UpdateProfilesData`: a profile per archive file, in order, each numbered
     * by its position and generated without storing; an error from a generation escapes, after
     * the profile it failed on was appended.
     */
    method LoadProfiles(files: seq<string>) returns (r: Result<bool, Exception>)
      requires Valid() && profiles == [] && !current.InList?
      modifies this`profiles, this`disk
      ensures Valid() && !current.InList? && disk == old(disk)
      ensures ListingOutcome(viewer.os, viewer.State(), disk, FileNames(viewer.os, files), r, profiles)
    {
      for i := 0 to |files|
        invariant Valid() && !current.InList? && disk == old(disk)
        invariant profiles == LoadedProfiles(viewer.os, disk, viewer.State(), FileNames(viewer.os, files)[..i])
      {
        var generated := LoadProfile(files, i);
        if generated.Err? {
          return generated;
        }
      }
      assert FileNames(viewer.os, files)[..|files|] == FileNames(viewer.os, files);
      return Ok(true);
    }

    /**
     * The fallback of `UpdateProfilesData` when the profiles folder holds no archive: the default
     * profile is listed and generated with new content, and the generation's result returned.
     */
    method StoreDefaultProfile() returns (r: Result<bool, Exception>)
      requires Valid() && profiles == [] && !current.InList?
      modifies this`profiles, this`disk
      ensures Valid() && !current.InList?
      ensures |profiles| == 1 && Names(profiles) == [DefaultProfileName]
      ensures GenerationEffect(viewer.os, PlanGeneration(viewer.State(), DefaultProfileName), true,
                               DefaultProfileItem(), old(disk), r, profiles[0], disk)
    {
      profiles := [DefaultProfileItem()];
      r := GenerateProfileData(0, true);
    }

    /**
     * The list rebuilt from archive files: a profile per file by the listing loop, or, when there
     * are none, the default profile stored afresh.
     */
    method Rebuild(files: seq<string>) returns (r: Result<bool, Exception>)
      requires Valid() && profiles == [] && !current.InList?
      modifies this`profiles, this`disk
      ensures Valid() && !current.InList?
      ensures files != [] ==>
                disk == old(disk) && ListingOutcome(viewer.os, viewer.State(), disk, FileNames(viewer.os, files), r, profiles)
      ensures files == [] ==>
                |profiles| == 1 && Names(profiles) == [DefaultProfileName] &&
                GenerationEffect(viewer.os, PlanGeneration(viewer.State(), DefaultProfileName), true,
                                 DefaultProfileItem(), old(disk), r, profiles[0], disk)
    {
      if files == [] {
        r := StoreDefaultProfile();
        return;
      }
      r := LoadProfiles(files);
    }

    /**
     * The rebuilding half of `UpdateProfilesData`, once the profiles folder has resolved: the
     * folder is created if missing, the current profile is detached from the list, and the list
     * is rebuilt from the folder's files sorted by name, or holds the default profile (stored
     * afresh) when there are none.
     */
    method Rescan(profilesFolder: string) returns (r: Result<bool, Exception>)
      requires Valid()
      modifies this`profiles, this`current, this`disk
      ensures Valid() && !current.InList? && CurrentId() == old(CurrentId())
      ensures Rescanned(viewer.os, viewer.State(), old(disk), profilesFolder, r, profiles, disk)
      ensures r.Ok? ==> |profiles| > 0
    {
      ghost var disk0 := disk;
      disk := disk.CreateDirectory(viewer.os, profilesFolder);
      if current.InList? {
        current := Detached(profiles[current.index]);
      }
      profiles := [];
      ghost var created := disk;
      var files := SortByName(viewer.os, disk.FilesIn(viewer.os, profilesFolder));
      r := Rebuild(files);
      RescannedFromRebuild(viewer.os, viewer.State(), disk0, profilesFolder, created, files, r, profiles, disk);
    }

    /**
     * The activation step of `UpdateProfilesData` after a rebuild with result `r0`: a result other
     * than true is returned as it is; otherwise the profile `RescanSelection` picks becomes current
     * and the only selected one, and is restored.
     */
    method Activate(r0: Result<bool, Exception>, previous: Option<int>, defaultSelection: int,
                    ghost profiles0: seq<ProfileItem>, ghost disk0: Disk, ghost last0: Option<string>)
      returns (r: Result<bool, Exception>)
      requires Valid() && !current.InList? && (r0 == Ok(true) ==> |profiles| > 0)
      requires profiles == profiles0 && disk == disk0 && lastUnzipped == last0
      requires previous.Some? ==> previous.value >= 0
      modifies this`profiles, this`current, this`disk, this`lastUnzipped, this`updateEvents
      ensures Valid()
      ensures Activated(viewer.os, viewer.State(), previous, defaultSelection, profiles0, disk0, last0,
                        r0, r, profiles, current, disk, lastUnzipped)
    {
      if r0.Err? || !r0.value {
        return r0;
      }
      ghost var current0 := current;
      var index := RescanSelection(previous, |profiles|, defaultSelection);
      r := SetActiveProfile(index);
      ActivatedBySelection(viewer.os, viewer.State(), previous, defaultSelection, profiles0, current0, disk0, last0,
                           index, r, profiles, current, disk, lastUnzipped);
    }

    /**
     * `UpdateProfilesData` once the profiles folder has resolved: the list is rebuilt from
     * `folder`, and unless that throws or gives false, `RescanSelection` is activated.
     */
    method RescanAndActivate(folder: string, defaultSelection: int)
      returns (r: Result<bool, Exception>, ghost rescanned: seq<ProfileItem>, ghost scannedDisk: Disk,
               ghost r0: Result<bool, Exception>)
      requires Valid()
      modifies this`profiles, this`current, this`disk, this`lastUnzipped, this`updateEvents
      ensures Valid()
      ensures Rescanned(viewer.os, viewer.State(), old(disk), folder, r0, rescanned, scannedDisk)
      ensures Activated(viewer.os, viewer.State(), old(CurrentId()), defaultSelection, rescanned, scannedDisk,
                        old(lastUnzipped), r0, r, profiles, current, disk, lastUnzipped)
    {
      var previous := CurrentId();
      assert previous.Some? ==> previous.value >= 0;
      ghost var last0 := lastUnzipped;
      ghost var disk0 := disk;
      var rebuilt := Rescan(folder);
      assert Rescanned(viewer.os, viewer.State(), disk0, folder, rebuilt, profiles, disk);
      r0, rescanned, scannedDisk := rebuilt, profiles, disk;
      r := Activate(rebuilt, previous, defaultSelection, rescanned, scannedDisk, last0);
    }

    /**
     * `UpdateProfilesData`: the list is rebuilt from the files of the profiles folder, and
     * `RescanSelection` is then activated. A profiles folder that does not resolve gives false and
     * changes nothing; a default profile whose snapshot fails gives false before any activation.
     */
    method UpdateProfilesData(defaultSelection: int) returns (r: Result<bool, Exception>)
      requires Valid()
      modifies this`profiles, this`current, this`disk, this`lastUnzipped, this`updateEvents
      ensures Valid()
      ensures old(ProfilesFolder(viewer.State())).Err? ==> r == Ok(false) && unchanged(this)
      ensures old(ProfilesFolder(viewer.State())).Ok? ==>
                Updated(viewer.os, viewer.State(), old(disk), old(ProfilesFolder(viewer.State())).value, old(CurrentId()),
                        defaultSelection, old(lastUnzipped), r, profiles, current, disk, lastUnzipped)
      ensures old(ProfilesFolder(viewer.State())).Ok? && r.Ok? ==>
                Names(profiles) == RescannedNames(viewer.os, old(disk), old(ProfilesFolder(viewer.State())).value)
      ensures r == Ok(true) ==> current == InList(RescanSelection(old(CurrentId()), |profiles|, defaultSelection))
    {
      var profilesFolder := ProfilesFolder(viewer.State());
      if profilesFolder.Err? {
        return Ok(false);
      }
      ghost var disk0, previous, last0 := disk, CurrentId(), lastUnzipped;
      ghost var rescanned, scannedDisk, r0;
      r, rescanned, scannedDisk, r0 := RescanAndActivate(profilesFolder.value, defaultSelection);
      UpdatedFrom(viewer.os, viewer.State(), disk0, profilesFolder.value, previous, defaultSelection, last0,
                  rescanned, scannedDisk, r0, r, profiles, current, disk, lastUnzipped);
      UpdatedLists(viewer.os, viewer.State(), disk0, profilesFolder.value, previous, defaultSelection, last0,
                   r, profiles, current, disk, lastUnzipped);
    }

    /**
     * `AddProfile`: a name already taken (ignoring case) gives false and changes nothing;
     * otherwise a profile with the next id is appended and generated with its snapshot stored.
     * Unless that generation throws, the new profile is then activated, whatever its result.
     */
    method AddProfile(profileName: string) returns (r: Result<bool, Exception>)
      requires Valid()
      modifies this`profiles, this`current, this`disk, this`lastUnzipped, this`updateEvents
      ensures Valid()
      ensures NameTaken(old(profiles), profileName) ==> r == Ok(false) && unchanged(this)
      ensures !NameTaken(old(profiles), profileName) ==>
                Names(profiles) == Names(old(profiles)) + [profileName] && profiles[|old(profiles)|].id == |old(profiles)|
      ensures !NameTaken(old(profiles), profileName) ==>
                Added(viewer.os, viewer.State(), old(profiles), old(current), old(disk), old(lastUnzipped), profileName,
                      r, profiles, current, disk, lastUnzipped)
      ensures !NameTaken(old(profiles), profileName) && r.Ok? ==>
                current == InList(|old(profiles)|) &&
                forall i :: 0 <= i < |profiles| ==> (profiles[i].isSelectedProfile <==> i == |old(profiles)|)
    {
      if NameTaken(profiles, profileName) {
        return Ok(false);
      }
      ghost var profiles0, current0, disk0, last0 := profiles, current, disk, lastUnzipped;
      profiles := profiles + [NewProfileItem(|profiles|, profileName)];
      assert Names(profiles) == Names(profiles0) + [profileName];
      r := GenerateAndActivate(profileName, profiles0, current0, disk0, last0);
    }

    /**
     * The second half of `AddProfile`, once the new profile is appended: it is generated with its
     * snapshot stored, and then, unless that generation throws, selected and restored.
     */
    method GenerateAndActivate(name: string, ghost profiles0: seq<ProfileItem>, ghost current0: Current,
                               ghost disk0: Disk, ghost last0: Option<string>)
      returns (r: Result<bool, Exception>)
      requires Valid() && profiles == profiles0 + [NewProfileItem(|profiles0|, name)]
      requires current == current0 && disk == disk0 && lastUnzipped == last0
      modifies this`profiles, this`current, this`disk, this`lastUnzipped, this`updateEvents
      ensures Valid()
      ensures Names(profiles) == Names(profiles0) + [name] && profiles[|profiles0|].id == |profiles0|
      ensures Added(viewer.os, viewer.State(), profiles0, current0, disk0, last0, name,
                    r, profiles, current, disk, lastUnzipped)
      ensures r.Ok? ==>
                current == InList(|profiles0|) &&
                forall i :: 0 <= i < |profiles| ==> (profiles[i].isSelectedProfile <==> i == |profiles0|)
    {
      var generated, added, stored := GenerateAppended(name, profiles0, disk0);
      if generated.Err? {
        AddedFrom(viewer.os, viewer.State(), profiles0, current0, disk0, last0, name, added, stored, generated,
                  generated, profiles, current, disk, lastUnzipped);
        return Err(generated.error);
      }
      r := ActivateAppended(name, profiles0, current0, last0, added, stored);
      AddedFrom(viewer.os, viewer.State(), profiles0, current0, disk0, last0, name, added, stored, generated,
                r, profiles, current, disk, lastUnzipped);
    }

    /** The generation of the appended profile, with its snapshot stored. */
    method GenerateAppended(name: string, ghost profiles0: seq<ProfileItem>, ghost disk0: Disk)
      returns (generated: Result<bool, Exception>, ghost added: ProfileItem, ghost stored: Disk)
      requires Valid() && profiles == profiles0 + [NewProfileItem(|profiles0|, name)] && disk == disk0
      modifies this`profiles, this`disk
      ensures Valid() && profiles == profiles0 + [added] && disk == stored
      ensures Names(profiles) == Names(profiles0) + [name]
      ensures added.profileName == name && added.id == |profiles0| && !added.isSelectedProfile
      ensures GenerationEffect(viewer.os, PlanGeneration(viewer.State(), name), true, NewProfileItem(|profiles0|, name),
                               disk0, generated, added, stored)
    {
      assert Names(profiles) == Names(profiles0) + [name];
      generated := GenerateProfileData(|profiles| - 1, true);
      added, stored := profiles[|profiles| - 1], disk;
      assert profiles == profiles0 + [added];
    }

    /** The activation of the appended profile once its generation returned a result. */
    method ActivateAppended(ghost name: string, ghost profiles0: seq<ProfileItem>, ghost current0: Current,
                            ghost last0: Option<string>, ghost added: ProfileItem, ghost stored: Disk)
      returns (r: Result<bool, Exception>)
      requires Valid() && profiles == profiles0 + [added] && added.profileName == name && added.id == |profiles0|
      requires current == current0 && disk == stored && lastUnzipped == last0
      modifies this`profiles, this`current, this`disk, this`lastUnzipped, this`updateEvents
      ensures Valid()
      ensures Names(profiles) == Names(profiles0) + [name] && profiles[|profiles0|].id == |profiles0|
      ensures current == InList(|profiles0|)
      ensures Restored(viewer.os, PlanRestore(viewer.State(), stored, Selected(profiles0 + [added], current0, |profiles0|)[|profiles0|]),
                       Selected(profiles0 + [added], current0, |profiles0|), stored, last0, |profiles0|,
                       r, profiles, disk, lastUnzipped)
      ensures forall i :: 0 <= i < |profiles| ==> (profiles[i].isSelectedProfile <==> i == |profiles0|)
    {
      r := SetActiveProfile(|profiles| - 1);
    }

    /**
     * The checks `DeleteProfile` makes before deleting an archive; a missing game root (a
     * null-reference error) and a path outside the manager folder (an unauthorized-access error)
     * are caught and refuse the deletion.
     */
    method CheckDeletable(path: string) returns (ok: bool)
      ensures ok <==> Deletable(viewer.os, disk, viewer.rootPath, path)
    {
      if path == "" || !disk.FileExists(path) {
        return false;
      }
      var rootPath := GetGameRootPath(viewer.State());
      if rootPath.Err? {
        return false;
      }
      ok := IsWithinManagerRootDirectory(viewer.os, path, rootPath.value);
      FoundBeforeLimitMeaning(AncestorNames(viewer.os, GetFullPath(viewer.os, path)), AppRootFolder,
                              GameRootParentName(viewer.os, rootPath.value));
    }

    /**
     * `DeleteProfile`: an index outside the list is an index-out-of-range error; a profile whose
     * archive path is empty, missing, or not inside the manager folder is left alone (false);
     * otherwise its archive is deleted and the list rescanned, any error there giving false.
     */
    method DeleteProfile(profileIndex: int) returns (r: Result<bool, Exception>)
      requires Valid()
      modifies this`profiles, this`current, this`disk, this`lastUnzipped, this`updateEvents
      ensures Valid()
      ensures !(0 <= profileIndex < |old(profiles)|) ==> r == Err(IndexOutOfRange) && unchanged(this)
      ensures 0 <= profileIndex < |old(profiles)| &&
              !Deletable(viewer.os, old(disk), old(viewer.rootPath), old(profiles[profileIndex].fullOsPath)) ==>
                r == Ok(false) && unchanged(this)
      ensures r == Ok(true) ==>
                0 <= profileIndex < |old(profiles)| &&
                Deletable(viewer.os, old(disk), old(viewer.rootPath), old(profiles[profileIndex].fullOsPath))
      ensures r == Ok(true) && old(ProfilesFolder(viewer.State())).Ok? ==>
                Names(profiles) == RescannedNames(viewer.os, old(disk).DeleteFile(old(profiles[profileIndex].fullOsPath)),
                                                  old(ProfilesFolder(viewer.State())).value)
      ensures 0 <= profileIndex < |old(profiles)| &&
              Deletable(viewer.os, old(disk), old(viewer.rootPath), old(profiles[profileIndex].fullOsPath)) &&
              old(ProfilesFolder(viewer.State())).Ok? ==>
                exists r1: Result<bool, Exception> :: r == Ok(r1.Ok?) &&
                  Updated(viewer.os, viewer.State(), old(disk).DeleteFile(old(profiles[profileIndex].fullOsPath)),
                          old(ProfilesFolder(viewer.State())).value, old(CurrentId()), -1, old(lastUnzipped),
                          r1, profiles, current, disk, lastUnzipped)
      ensures 0 <= profileIndex < |old(profiles)| &&
              Deletable(viewer.os, old(disk), old(viewer.rootPath), old(profiles[profileIndex].fullOsPath)) &&
              old(ProfilesFolder(viewer.State())).Err? ==>
                r == Ok(true) && disk == old(disk).DeleteFile(old(profiles[profileIndex].fullOsPath)) &&
                profiles == old(profiles) && current == old(current) && lastUnzipped == old(lastUnzipped)
    {
      if profileIndex < 0 || profileIndex >= |profiles| {
        return Err(IndexOutOfRange);
      }
      var profile := profiles[profileIndex];
      var deletable := CheckDeletable(profile.fullOsPath);
      if !deletable {
        return Ok(false);
      }
      disk := disk.DeleteFile(profile.fullOsPath);
      var updated := UpdateProfilesData(-1);
      if updated.Err? {
        r := Ok(false);
      } else {
        r := Ok(true);
      }
      assert r == Ok(updated.Ok?);
    }

    /**
     * `SaveActiveProfile`: no current profile is a null-reference error, one dropped by a rescan an
     * argument-out-of-range error; otherwise the current profile is generated with new content.
     */
    method SaveActiveProfile() returns (r: Result<bool, Exception>)
      requires Valid()
      modifies this`profiles, this`disk
      ensures Valid()
      ensures current == NoCurrent ==> r == Err(NullReference) && unchanged(this)
      ensures current.Detached? ==> r == Err(ArgumentOutOfRange) && unchanged(this)
      ensures current.InList? ==>
                |profiles| == old(|profiles|) &&
                (forall k :: 0 <= k < |profiles| && k != current.index ==> profiles[k] == old(profiles[k])) &&
                GenerationEffect(viewer.os, old(PlanGeneration(viewer.State(), profiles[current.index].profileName)), true,
                                 old(profiles[current.index]), old(disk), r, profiles[current.index], disk)
    {
      var active := GetInstanceActiveProfile();
      if active.Err? {
        return Err(active.error);
      }
      r := GenerateProfileData(current.index, true);
    }
  }
}
