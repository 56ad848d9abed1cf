/**
 * `ProfileItemUtils`: a profile reduced to the directories its tracked files live in
 * (`ToMetaData`), and a profile rebuilt from such directories under `BepInEx` (`ToProfileItem`).
 */
module ProfileItemUtils {
  import opened Wrappers
  import opened Text
  import opened Paths
  import opened FileSystem
  import opened ProfileModel
  import opened FolderViewer

  /** `ProfileItemMetaData`: a profile's name and the directories of the files it tracks. */
  datatype ProfileItemMetaData = ProfileItemMetaData(profileName: string, allUsedDirectoryPaths: seq<string>)

  predicate Distinct(s: seq<string>) {
    forall i, j :: 0 <= i < j < |s| ==> s[i] != s[j]
  }

  // ---------------------------------------------------------------------------------------------
  // ToMetaData

  /** The directory a tracked path contributes: none for an empty path or an empty directory part. */
  function ItemDirectory(os: Os, path: string): Option<string> {
    if path == "" then None
    else match GetDirectoryName(os, path)
      case None => None
      case Some(d) => if d == "" then None else Some(d)
  }

  /** The directories of `paths` added in order to the set `acc`, kept in insertion order. */
  function AddDirectories(os: Os, acc: seq<string>, paths: seq<string>): (r: seq<string>)
    ensures |acc| <= |r| && r[..|acc|] == acc
    decreases |paths|
  {
    if paths == [] then acc
    else
      var prev := AddDirectories(os, acc, paths[..|paths| - 1]);
      match ItemDirectory(os, paths[|paths| - 1])
      case None => prev
      case Some(d) => if d in prev then prev else prev + [d]
  }

  /** The result holds each directory once, and exactly those of `acc` and of the paths. */
  lemma {:induction false} AddDirectoriesContents(os: Os, acc: seq<string>, paths: seq<string>)
    requires Distinct(acc)
    ensures Distinct(AddDirectories(os, acc, paths))
    ensures forall d :: d in AddDirectories(os, acc, paths) <==>
              d in acc || exists i :: 0 <= i < |paths| && ItemDirectory(os, paths[i]) == Some(d)
    decreases |paths|
  {
    if paths != [] {
      var init := paths[..|paths| - 1];
      AddDirectoriesContents(os, acc, init);
      assert forall i :: 0 <= i < |init| ==> init[i] == paths[i];
    }
  }

  /** Adding two runs of paths one after the other is adding their concatenation. */
  lemma {:induction false} AddDirectoriesConcat(os: Os, acc: seq<string>, a: seq<string>, b: seq<string>)
    ensures AddDirectories(os, AddDirectories(os, acc, a), b) == AddDirectories(os, acc, a + b)
    decreases |b|
  {
    if b == [] {
      assert a + b == a;
    } else {
      AddDirectoriesConcat(os, acc, a, b[..|b| - 1]);
      assert (a + b)[..|a + b| - 1] == a + b[..|b| - 1];
      assert (a + b)[|a + b| - 1] == b[|b| - 1];
    }
  }

  /** Every path the conversion looks at: the configs', then the patchers', then the mods'. */
  function TrackedPaths(profile: ProfileItem): seq<string> {
    ItemPaths(profile.configs) + ItemPaths(profile.patchers) + ModPaths(profile.mods)
  }

  /**
   * One of the three loops of `ToMetaData`: the directory of each non-empty path, when it has a
   * non-empty one, added to the set `directoriesPaths`.
   */
  method CollectDirectories(os: Os, directoriesPaths: seq<string>, paths: seq<string>) returns (r: seq<string>)
    ensures r == AddDirectories(os, directoriesPaths, paths)
  {
    r := directoriesPaths;
    for i := 0 to |paths|
      invariant r == AddDirectories(os, directoriesPaths, paths[..i])
    {
      assert paths[..i + 1][..i] == paths[..i];
      if paths[i] == "" { continue; }
      var directoryPath := GetDirectoryName(os, paths[i]);
      if directoryPath.None? || directoryPath.value == "" { continue; }
      if directoryPath.value !in r {
        r := r + [directoryPath.value];
      }
    }
    assert paths[..|paths|] == paths;
  }

  /**
   * `ToMetaData`: the profile name unchanged, and the distinct non-empty directories of the
   * non-empty tracked paths, gathered through configs, patchers and mods in turn.
   */
  method ToMetaData(os: Os, profileItem: ProfileItem) returns (m: ProfileItemMetaData)
    ensures m.profileName == profileItem.profileName
    ensures m.allUsedDirectoryPaths == AddDirectories(os, [], TrackedPaths(profileItem))
  {
    var configs, patchers, mods := ItemPaths(profileItem.configs), ItemPaths(profileItem.patchers), ModPaths(profileItem.mods);
    var directoriesPaths := CollectDirectories(os, [], configs);
    directoriesPaths := CollectDirectories(os, directoriesPaths, patchers);
    directoriesPaths := CollectDirectories(os, directoriesPaths, mods);
    AddDirectoriesConcat(os, [], configs, patchers);
    AddDirectoriesConcat(os, [], configs + patchers, mods);
    m := ProfileItemMetaData(profileItem.profileName, directoriesPaths);
  }

  /**
   * What `ToMetaData` promises: each directory at most once, and a directory is listed exactly
   * when it is the non-empty directory part of some non-empty tracked path.
   */
  lemma MetaDataDirectories(os: Os, profileItem: ProfileItem)
    ensures Distinct(AddDirectories(os, [], TrackedPaths(profileItem)))
    ensures forall d :: d in AddDirectories(os, [], TrackedPaths(profileItem)) <==>
              exists p :: p in TrackedPaths(profileItem) && p != "" &&
                          GetDirectoryName(os, p) == Some(d) && d != ""
  {
    var ps := TrackedPaths(profileItem);
    var r := AddDirectories(os, [], ps);
    AddDirectoriesContents(os, [], ps);
    forall d ensures d in r <==> exists p :: p in ps && p != "" && GetDirectoryName(os, p) == Some(d) && d != "" {
      if d in r {
        var i :| 0 <= i < |ps| && ItemDirectory(os, ps[i]) == Some(d);
        assert ps[i] in ps;
      }
      if exists p :: p in ps && p != "" && GetDirectoryName(os, p) == Some(d) && d != "" {
        var p :| p in ps && p != "" && GetDirectoryName(os, p) == Some(d) && d != "";
        var i :| 0 <= i < |ps| && ps[i] == p;
        assert ItemDirectory(os, ps[i]) == Some(d);
      }
    }
  }

  // ---------------------------------------------------------------------------------------------
  // ToProfileItem

  /** Items for the files of a folder, numbered from `start`, each with its path relative to the game root. */
  function FileItems(os: Os, root: string, files: seq<string>, start: int): (r: seq<ItemWithPath>)
    ensures |r| == |files|
    ensures forall i :: 0 <= i < |files| ==>
              r[i] == ItemWithPath(start + i, files[i], GetRelativePath(os, root, files[i]))
  {
    seq(|files|, i requires 0 <= i < |files| => ItemWithPath(start + i, files[i], GetRelativePath(os, root, files[i])))
  }

  /** How the conversion treats a listed directory: by its name, when it is an existing folder inside "BepInEx". */
  datatype FolderKind = PatchersFolder | ConfigsFolder | PluginsFolder | OtherFolder

  /**
   * The kind of a listed directory: a missing path, or one whose parent is not named "BepInEx",
   * is of no kind; otherwise its name, lower-cased, decides. Parent and name are those of the
   * full path, as `new DirectoryInfo(path)` resolves it.
   */
  function KindOf(os: Os, disk: Disk, path: string): FolderKind {
    if !disk.DirectoryExists(path) then OtherFolder
    else match DirectoryParent(os, GetFullPath(os, path))
      case None => OtherFolder
      case Some(parent) =>
        if DirectoryName(os, parent) != BepInExFolder then OtherFolder
        else
          var name := ToLower(DirectoryName(os, GetFullPath(os, path)));
          if name == "patchers" then PatchersFolder
          else if name == "configs" then ConfigsFolder
          else if name == "plugins" then PluginsFolder
          else OtherFolder
  }

  /** What one listed directory adds to the profile being built; a plugins folder adds nothing. */
  function WithDirectory(os: Os, disk: Disk, root: string, item: ProfileItem, path: string): ProfileItem {
    match KindOf(os, disk, path)
    case PatchersFolder =>
      item.(patchers := item.patchers + FileItems(os, root, disk.FilesIn(os, path), |item.patchers|))
    case ConfigsFolder =>
      item.(configs := item.configs + FileItems(os, root, disk.FilesIn(os, path), |item.configs|))
    case PluginsFolder => item
    case OtherFolder => item
  }

  /** The listed directories taken in order; only the configs and patchers lists change, and only by growing. */
  function WithDirectories(os: Os, disk: Disk, root: string, item: ProfileItem, paths: seq<string>): (r: ProfileItem)
    ensures r == item.(configs := r.configs, patchers := r.patchers)
    ensures |item.configs| <= |r.configs| && r.configs[..|item.configs|] == item.configs
    ensures |item.patchers| <= |r.patchers| && r.patchers[..|item.patchers|] == item.patchers
    decreases |paths|
  {
    if paths == [] then item
    else WithDirectory(os, disk, root, WithDirectories(os, disk, root, item, paths[..|paths| - 1]), paths[|paths| - 1])
  }

  /** The configs, or the patchers, of a profile. */
  function Listed(item: ProfileItem, kind: FolderKind): seq<ItemWithPath>
    requires kind == ConfigsFolder || kind == PatchersFolder
  {
    if kind == ConfigsFolder then item.configs else item.patchers
  }

  /** Configs and patchers numbered 0, 1, 2, ... */
  predicate NumberedByPosition(item: ProfileItem) {
    (forall i :: 0 <= i < |item.configs| ==> item.configs[i].id == i) &&
    (forall i :: 0 <= i < |item.patchers| ==> item.patchers[i].id == i)
  }

  /** A file directly inside `folder`, a folder of the given kind, with its path relative to the game root. */
  predicate FileOf(os: Os, disk: Disk, root: string, folder: string, kind: FolderKind, x: ItemWithPath) {
    KindOf(os, disk, folder) == kind &&
    disk.FileExists(x.fullOsPath) && GetDirectoryName(os, x.fullOsPath) == Some(folder) &&
    x.relativeOsPath == GetRelativePath(os, root, x.fullOsPath)
  }

  /** An item that is a file of one of the listed folders of the given kind. */
  predicate TakenFrom(os: Os, disk: Disk, root: string, paths: seq<string>, kind: FolderKind, x: ItemWithPath) {
    exists k :: 0 <= k < |paths| && FileOf(os, disk, root, paths[k], kind, x)
  }

  /** The listed directories keep the configs and patchers numbered by position. */
  lemma {:induction false} WithDirectoriesNumbered(os: Os, disk: Disk, root: string, item: ProfileItem, paths: seq<string>)
    requires NumberedByPosition(item)
    ensures NumberedByPosition(WithDirectories(os, disk, root, item, paths))
    decreases |paths|
  {
    if paths != [] {
      var prefix := paths[..|paths| - 1];
      WithDirectoriesNumbered(os, disk, root, item, prefix);
      WithDirectoryNumbered(os, disk, root, WithDirectories(os, disk, root, item, prefix), paths[|paths| - 1]);
    }
  }

  /** One listed directory keeps the configs and patchers numbered by position. */
  lemma WithDirectoryNumbered(os: Os, disk: Disk, root: string, item: ProfileItem, path: string)
    requires NumberedByPosition(item)
    ensures NumberedByPosition(WithDirectory(os, disk, root, item, path))
  {
  }

  /** One listed directory keeps the items of a list and adds only files of that folder. */
  lemma WithDirectoryFiles(os: Os, disk: Disk, root: string, item: ProfileItem, path: string, kind: FolderKind)
    requires kind == ConfigsFolder || kind == PatchersFolder
    ensures var r := Listed(WithDirectory(os, disk, root, item, path), kind);
            |Listed(item, kind)| <= |r| &&
            (forall i :: 0 <= i < |Listed(item, kind)| ==> r[i] == Listed(item, kind)[i]) &&
            (forall i :: |Listed(item, kind)| <= i < |r| ==> FileOf(os, disk, root, path, kind, r[i]))
  {
  }

  /**
   * Every item the listed directories add to the configs (or the patchers) is a file of an
   * accepted folder of that name, with its path relative to the game root.
   */
  lemma {:induction false} WithDirectoriesTaken(os: Os, disk: Disk, root: string, item: ProfileItem, paths: seq<string>, kind: FolderKind)
    requires kind == ConfigsFolder || kind == PatchersFolder
    ensures var r := Listed(WithDirectories(os, disk, root, item, paths), kind);
            |Listed(item, kind)| <= |r| &&
            forall i :: |Listed(item, kind)| <= i < |r| ==> TakenFrom(os, disk, root, paths, kind, r[i])
    decreases |paths|
  {
    if paths != [] {
      var init := paths[..|paths| - 1];
      var last := paths[|paths| - 1];
      var prev := WithDirectories(os, disk, root, item, init);
      var r := Listed(WithDirectory(os, disk, root, prev, last), kind);
      assert r == Listed(WithDirectories(os, disk, root, item, paths), kind);
      WithDirectoriesTaken(os, disk, root, item, init, kind);
      WithDirectoryFiles(os, disk, root, prev, last, kind);
      forall i | |Listed(item, kind)| <= i < |r|
        ensures TakenFrom(os, disk, root, paths, kind, r[i])
      {
        if i < |Listed(prev, kind)| {
          var k :| 0 <= k < |init| && FileOf(os, disk, root, init[k], kind, Listed(prev, kind)[i]);
          assert paths[k] == init[k];
        } else {
          assert FileOf(os, disk, root, paths[|paths| - 1], kind, r[i]);
        }
      }
    }
  }

  /** `RetrievePatchersToProfileItem` / `RetrieveConfigsToProfileItem`: one item per file, numbered on from the list's length. */
  method RetrieveInto(os: Os, disk: Disk, root: string, items: seq<ItemWithPath>, folder: string)
    returns (r: seq<ItemWithPath>)
    ensures r == items + FileItems(os, root, disk.FilesIn(os, folder), |items|)
  {
    var files := disk.FilesIn(os, folder);
    ghost var listed := FileItems(os, root, files, |items|);
    r := items;
    for j := 0 to |files|
      invariant |r| == |items| + j
      invariant r == items + listed[..j]
    {
      FileItemsStep(os, root, files, items, j);
      r := r + [ItemWithPath(|r|, files[j], GetRelativePath(os, root, files[j]))];
    }
    assert listed[..|files|] == listed;
  }

  /** The items of the first `j + 1` files are those of the first `j` and then the item of `files[j]`. */
  lemma FileItemsStep(os: Os, root: string, files: seq<string>, items: seq<ItemWithPath>, j: nat)
    requires j < |files|
    ensures items + FileItems(os, root, files, |items|)[..j + 1] ==
            items + FileItems(os, root, files, |items|)[..j] + [ItemWithPath(|items| + j, files[j], GetRelativePath(os, root, files[j]))]
  {
    var listed := FileItems(os, root, files, |items|);
    assert listed[..j + 1] == listed[..j] + [listed[j]];
  }

  /** The switch in the loop of `ToProfileItem`: the files of a patchers or configs folder are added. */
  method AddDirectory(os: Os, disk: Disk, root: string, profileItem: ProfileItem, path: string) returns (updated: ProfileItem)
    ensures updated == WithDirectory(os, disk, root, profileItem, path)
  {
    updated := profileItem;
    match KindOf(os, disk, path) {
      case PatchersFolder =>
        var patchers := RetrieveInto(os, disk, root, profileItem.patchers, path);
        updated := profileItem.(patchers := patchers);
      case ConfigsFolder =>
        var configs := RetrieveInto(os, disk, root, profileItem.configs, path);
        updated := profileItem.(configs := configs);
      case PluginsFolder =>
        // `RetrieveModsToProfileItem` adds nothing.
      case OtherFolder =>
    }
  }

  /** Taking one more listed directory is applying `WithDirectory` to it. */
  lemma WithDirectoriesStep(os: Os, disk: Disk, root: string, item: ProfileItem, paths: seq<string>, i: nat)
    requires i < |paths|
    ensures WithDirectories(os, disk, root, item, paths[..i + 1]) ==
            WithDirectory(os, disk, root, WithDirectories(os, disk, root, item, paths[..i]), paths[i])
  {
    assert paths[..i + 1][..i] == paths[..i];
  }

  /**
   * `ToProfileItem`: with the game root unset, the root lookup throws and the collection is left
   * alone; otherwise a new profile numbered by the collection's length is built from the listed
   * directories and appended to the collection.
   */
  method ToProfileItem(metaData: ProfileItemMetaData, collection: seq<ProfileItem>, viewer: PlusFolderViewer, disk: Disk)
    returns (r: Result<ProfileItem, Exception>, newCollection: seq<ProfileItem>)
    ensures viewer.rootPath == "" ==> r == Err(NullReference) && newCollection == collection
    ensures viewer.rootPath != "" ==>
              r == Ok(WithDirectories(viewer.os, disk, viewer.rootPath, NewProfileItem(|collection|, metaData.profileName),
                                      metaData.allUsedDirectoryPaths)) &&
              newCollection == collection + [r.value]
  {
    var os := viewer.os;
    var profileItem := NewProfileItem(|collection|, metaData.profileName);
    var rootPath := GetGameRootPath(viewer.State());
    if rootPath.Err? {
      return Err(rootPath.error), collection;
    }
    var paths := metaData.allUsedDirectoryPaths;
    for i := 0 to |paths|
      invariant profileItem == WithDirectories(os, disk, rootPath.value, NewProfileItem(|collection|, metaData.profileName), paths[..i])
    {
      WithDirectoriesStep(os, disk, rootPath.value, NewProfileItem(|collection|, metaData.profileName), paths, i);
      profileItem := AddDirectory(os, disk, rootPath.value, profileItem, paths[i]);
    }
    assert paths[..|paths|] == paths;
    newCollection := collection + [profileItem];
    r := Ok(profileItem);
  }

  /**
   * The profile `ToProfileItem` builds: numbered by the collection's length, named as the
   * metadata, unselected, the placeholder mods ("plugins" adds nothing), and configs and patchers
   * numbered by position, each a file of a listed existing folder of that name inside "BepInEx".
   */
  lemma BuiltProfile(os: Os, disk: Disk, root: string, metaData: ProfileItemMetaData, id: int)
    ensures var p := WithDirectories(os, disk, root, NewProfileItem(id, metaData.profileName), metaData.allUsedDirectoryPaths);
            p.id == id && p.profileName == metaData.profileName && !p.isSelectedProfile &&
            p.mods == PlaceholderMods() && NumberedByPosition(p) &&
            (forall i :: 0 <= i < |p.configs| ==> TakenFrom(os, disk, root, metaData.allUsedDirectoryPaths, ConfigsFolder, p.configs[i])) &&
            (forall i :: 0 <= i < |p.patchers| ==> TakenFrom(os, disk, root, metaData.allUsedDirectoryPaths, PatchersFolder, p.patchers[i]))
  {
    var item := NewProfileItem(id, metaData.profileName);
    WithDirectoriesNumbered(os, disk, root, item, metaData.allUsedDirectoryPaths);
    WithDirectoriesTaken(os, disk, root, item, metaData.allUsedDirectoryPaths, ConfigsFolder);
    WithDirectoriesTaken(os, disk, root, item, metaData.allUsedDirectoryPaths, PatchersFolder);
  }

  /**
   * A listed path that is missing, not inside a folder named "BepInEx", or a plugins folder, adds
   * nothing.
   */
  lemma IgnoredDirectory(os: Os, disk: Disk, root: string, item: ProfileItem, paths: seq<string>, path: string)
    requires !disk.DirectoryExists(path) || DirectoryParent(os, GetFullPath(os, path)).None? ||
             DirectoryName(os, DirectoryParent(os, GetFullPath(os, path)).value) != BepInExFolder ||
             ToLower(DirectoryName(os, GetFullPath(os, path))) == "plugins"
    ensures WithDirectories(os, disk, root, item, paths + [path]) == WithDirectories(os, disk, root, item, paths)
  {
    IgnoredKind(os, disk, path);
    assert (paths + [path])[..|paths|] == paths;
  }

  /** The folders the ignore rule names are exactly the plugins and unrecognised kinds. */
  lemma IgnoredKind(os: Os, disk: Disk, path: string)
    requires !disk.DirectoryExists(path) || DirectoryParent(os, GetFullPath(os, path)).None? ||
             DirectoryName(os, DirectoryParent(os, GetFullPath(os, path)).value) != BepInExFolder ||
             ToLower(DirectoryName(os, GetFullPath(os, path))) == "plugins"
    ensures KindOf(os, disk, path) == PluginsFolder || KindOf(os, disk, path) == OtherFolder
  {
  }
}
