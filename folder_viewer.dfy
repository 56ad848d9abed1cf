/**
 * `PlusFolderViewer`: validation of the game executable, which fixes the game root, and the
 * sandboxed path composition under that root.
 */
module FolderViewer {
  import opened Wrappers
  import opened Text
  import opened Paths
  import opened FileSystem
  import opened FileUtils
  import UnixUtils

  /** `IGameFolderViewer.CommonDirectory`. */
  datatype CommonDirectory = BaldiData | BepInEx | ManagerRoot

  const BepInExFolder: string := "BepInEx"

  /** The executable file name the validation expects on each platform ("" where none is accepted). */
  function ExecutableName(os: Os): string {
    match os
    case Windows => "BALDI.exe"
    case MacOS => "BALDI.app"
    case Linux => "BALDI.x86_64"
    case OtherOs => ""
  }

  /** The data folder the validation requires next to the executable. */
  function DataFolder(os: Os, root: string): string {
    if os == MacOS then CombineAll(os, [root, "Contents", "Resources", "Data"])
    else Combine(os, root, "BALDI_Data")
  }

  lemma StartsWithTransitive(a: string, b: string, c: string)
    requires StartsWith(a, b) && StartsWith(b, c)
    ensures StartsWith(a, c)
  {
    assert a[..|c|] == a[..|b|][..|c|];
  }

  /** The data folder lies textually under the root and is longer than it. */
  lemma DataFolderUnderRoot(os: Os, root: string)
    requires root != ""
    ensures StartsWith(DataFolder(os, root), root) && |DataFolder(os, root)| > |root|
  {
    if os == MacOS {
      var c := CombineAll(os, [root, "Contents"]);
      var r := CombineAll(os, [root, "Contents", "Resources"]);
      assert [root, "Contents", "Resources", "Data"][..3] == [root, "Contents", "Resources"];
      assert [root, "Contents", "Resources"][..2] == [root, "Contents"];
      assert [root, "Contents"][..1] == [root];
      assert CombineAll(os, [root]) == root by {
        assert [root][..0] == [];
      }
      StartsWithTransitive(r, c, root);
      StartsWithTransitive(DataFolder(os, root), r, root);
    }
  }

  /**
   * What `ValidateFolder` decides, as a value: the game root (the long form of the executable's
   * directory) and the data folder when the executable is accepted, `None` otherwise. The branch
   * order follows the method: blank input, missing file, no directory, then the platform checks.
   */
  function Validation(os: Os, disk: Disk, executablePath: string): (r: Option<(string, string)>)
    ensures r.Some? ==>
              !IsNullOrWhiteSpace(executablePath) && os != OtherOs &&
              disk.FileExists(GetLongPath(os, executablePath)) &&
              GetFileName(os, GetLongPath(os, executablePath)) == ExecutableName(os) &&
              (os != Windows ==> UnixUtils.CheckIfUnixFileIsExecutableAt(disk, GetLongPath(os, executablePath))) &&
              disk.DirectoryExists(r.value.1) && r.value.1 == DataFolder(os, r.value.0)
    ensures r.Some? ==>
              var dir := GetDirectoryName(os, GetLongPath(os, executablePath));
              dir.Some? && dir.value != "" && r.value.0 == GetLongPath(os, dir.value)
    ensures IsNullOrWhiteSpace(executablePath) || os == OtherOs ==> r.None?
  {
    if IsNullOrWhiteSpace(executablePath) then None
    else
      var exe := GetLongPath(os, executablePath);
      if !disk.FileExists(exe) then None
      else match GetDirectoryName(os, exe)
        case None => None
        case Some(dir) =>
          if dir == "" then None
          else
            var root := GetLongPath(os, dir);
            if os == OtherOs || GetFileName(os, exe) != ExecutableName(os) then None
            else if os != Windows && !UnixUtils.CheckIfUnixFileIsExecutableAt(disk, exe) then None
            else if !disk.DirectoryExists(DataFolder(os, root)) then None
            else Some((root, DataFolder(os, root)))
  }

  /**
   * The checks of `ValidateFolder` are also sufficient: an executable that passes every one of
   * them is accepted, with the long form of its directory as the root.
   */
  lemma ValidationAccepts(os: Os, disk: Disk, executablePath: string, dir: string)
    requires !IsNullOrWhiteSpace(executablePath) && os != OtherOs
    requires disk.FileExists(GetLongPath(os, executablePath))
    requires GetDirectoryName(os, GetLongPath(os, executablePath)) == Some(dir) && dir != ""
    requires GetFileName(os, GetLongPath(os, executablePath)) == ExecutableName(os)
    requires os != Windows ==> UnixUtils.CheckIfUnixFileIsExecutableAt(disk, GetLongPath(os, executablePath))
    requires disk.DirectoryExists(DataFolder(os, GetLongPath(os, dir)))
    ensures Validation(os, disk, executablePath) ==
            Some((GetLongPath(os, dir), DataFolder(os, GetLongPath(os, dir))))
  {
  }

  /** The directory of a path in long form is in long form too. */
  lemma DirectoryOfLongPath(os: Os, exe: string, dir: string)
    requires os == Windows ==> StartsWith(exe, DevicePrefix)
    requires GetDirectoryName(os, exe) == Some(dir)
    ensures GetLongPath(os, dir) == dir
  {
    if os == Windows {
      assert |dir| >= RootLength(os, exe) >= 4 by {
        assert |exe| > RootLength(os, exe);
      }
      assert dir[..4] == exe[..4];
    }
  }

  /**
   * An accepted executable lies under the root it yields, the root is already in long form, and
   * the data folder lies under the root.
   */
  lemma ValidatedRootContainsExecutable(os: Os, disk: Disk, executablePath: string)
    requires Validation(os, disk, executablePath).Some?
    ensures var (root, data) := Validation(os, disk, executablePath).value;
            root != "" && GetLongPath(os, root) == root &&
            StartsWith(GetLongPath(os, executablePath), root) &&
            |root| < |GetLongPath(os, executablePath)| &&
            StartsWith(data, root)
  {
    var exe := GetLongPath(os, executablePath);
    var dir := GetDirectoryName(os, exe).value;
    assert exe[..|dir|] == dir;
    DirectoryOfLongPath(os, exe, dir);
    DataFolderUnderRoot(os, dir);
  }

  /**
   * What the viewer's path queries read: its platform, `_rootPath` ("" until a validation with
   * `setPathIfTrue` succeeds) and `_baldiDataFolder`.
   */
  datatype Roots = Roots(os: Os, rootPath: string, baldiDataFolder: string)

  /** Once set, the root is in long form and the data folder lies under it. */
  predicate ValidRoots(v: Roots) {
    v.rootPath != "" ==> GetLongPath(v.os, v.rootPath) == v.rootPath && StartsWith(v.baldiDataFolder, v.rootPath)
  }

  /** The `RootPath` getter: a `NullReferenceException` while the root is unset. */
  function RootPath(v: Roots): (r: Result<string, Exception>)
    ensures r.Err? <==> v.rootPath == ""
    ensures r.Err? ==> r.error == NullReference
    ensures r.Ok? ==> r.value == v.rootPath
  {
    if v.rootPath == "" then Err(NullReference) else Ok(v.rootPath)
  }

  /** `GetGameRootPath()`: the `RootPath` getter. */
  function GetGameRootPath(v: Roots): Result<string, Exception> {
    RootPath(v)
  }

  /** The relative part `SearchPath` forms: one segment as is, several through `Path.Combine`. */
  function FormedPath(os: Os, paths: seq<string>): (r: string)
    ensures |paths| == 1 ==> r == paths[0]
    ensures |paths| != 1 ==> r == CombineAll(os, paths)
  {
    if |paths| != 1 then CombineAll(os, paths) else paths[0]
  }

  /**
   * `SearchPath`: no segments is an argument-out-of-range error; otherwise the formed path is
   * combined onto the root and returned in long form if the combination textually starts with
   * the root, and rejected with an invalid-operation error if not.
   */
  function SearchPath(v: Roots, paths: seq<string>): (r: Result<string, Exception>)
    ensures paths == [] <==> r == Err(ArgumentOutOfRange)
    ensures paths != [] && v.rootPath == "" ==> r == Err(NullReference)
    ensures r.Ok? ==> v.rootPath != "" &&
                      StartsWith(Combine(v.os, v.rootPath, FormedPath(v.os, paths)), v.rootPath) &&
                      r.value == GetLongPath(v.os, Combine(v.os, v.rootPath, FormedPath(v.os, paths)))
    ensures paths != [] && v.rootPath != "" && !StartsWith(Combine(v.os, v.rootPath, FormedPath(v.os, paths)), v.rootPath) ==>
              r == Err(InvalidOperation)
  {
    if |paths| < 1 then Err(ArgumentOutOfRange)
    else
      var formed := FormedPath(v.os, paths);
      match RootPath(v)
      case Err(e) => Err(e)
      case Ok(root) =>
        var absolutePath := Combine(v.os, root, formed);
        if !StartsWith(absolutePath, root) then Err(InvalidOperation)
        else Ok(GetLongPath(v.os, absolutePath))
  }

  /** With a validated root, every path `SearchPath` returns starts with the root. */
  lemma SearchPathStaysUnderRoot(v: Roots, paths: seq<string>)
    requires ValidRoots(v) && SearchPath(v, paths).Ok?
    ensures StartsWith(SearchPath(v, paths).value, v.rootPath)
  {
    var abs := Combine(v.os, v.rootPath, FormedPath(v.os, paths));
    if v.os == Windows {
      assert StartsWith(v.rootPath, DevicePrefix);
      StartsWithTransitive(abs, v.rootPath, DevicePrefix);
    }
  }

  /** A rooted segment that does not start with the root is rejected. */
  lemma RootedOutsideRejected(v: Roots, s: string)
    requires v.rootPath != "" && IsPathRooted(v.os, s) && !StartsWith(s, v.rootPath)
    ensures SearchPath(v, [s]) == Err(InvalidOperation)
  {
  }

  /** The check is textual: `..` is not collapsed, so the combination climbs out of the root and passes. */
  lemma ParentSegmentAccepted(v: Roots)
    requires v.rootPath != ""
    ensures SearchPath(v, [".."]).Ok?
    ensures SearchPath(v, [".."]).value == GetLongPath(v.os, Combine(v.os, v.rootPath, ".."))
  {
    assert !IsPathRooted(v.os, "..");
  }

  /** The check is textual: a rooted sibling such as the root followed by "2" passes. */
  lemma SiblingFolderAccepted(v: Roots)
    requires v.rootPath != "" && IsPathRooted(v.os, v.rootPath)
    ensures SearchPath(v, [v.rootPath + "2"]) == Ok(GetLongPath(v.os, v.rootPath + "2"))
  {
    var root := v.rootPath;
    assert (root + "2")[..|root|] == root;
    assert IsPathRooted(v.os, root + "2") by {
      assert (root + "2")[0] == root[0];
      if v.os == Windows && |root| >= 2 {
        assert (root + "2")[1] == root[1];
      }
    }
  }

  /** `TrySearchPath`: `(true, path)` when `SearchPath` returns, `(false, "")` when it throws. */
  function TrySearchPath(v: Roots, paths: seq<string>): (r: (bool, string))
    ensures r.0 <==> SearchPath(v, paths).Ok?
    ensures r.0 ==> r.1 == SearchPath(v, paths).value
    ensures !r.0 ==> r.1 == ""
  {
    match SearchPath(v, paths)
    case Ok(p) => (true, p)
    case Err(_) => (false, "")
  }

  /**
   * `GetPathFrom`: the data folder, or `SearchPath("BepInEx")` / `SearchPath(".gmp")`, made
   * relative to the game root on request (an empty path is an argument error there).
   */
  function GetPathFrom(v: Roots, directoryType: CommonDirectory, relativeToRootPath: bool): (r: Result<string, Exception>)
    ensures !relativeToRootPath && directoryType == BepInEx ==> r == SearchPath(v, [BepInExFolder])
    ensures !relativeToRootPath && directoryType == ManagerRoot ==> r == SearchPath(v, [AppRootFolder])
    ensures !relativeToRootPath && directoryType == BaldiData ==> r == Ok(v.baldiDataFolder)
    ensures v.rootPath == "" && (relativeToRootPath || directoryType != BaldiData) ==> r == Err(NullReference)
  {
    var path := match directoryType
      case BaldiData => Ok(v.baldiDataFolder)
      case BepInEx => SearchPath(v, [BepInExFolder])
      case ManagerRoot => SearchPath(v, [AppRootFolder]);
    match path
    case Err(e) => Err(e)
    case Ok(p) =>
      if !relativeToRootPath then Ok(p)
      else match GetGameRootPath(v)
        case Err(e) => Err(e)
        case Ok(root) => if p == "" then Err(ArgumentError) else Ok(GetRelativePath(v.os, root, p))
  }

  /** With a validated root, the BepInEx and manager folders are the root's children of those names. */
  lemma CommonFoldersUnderRoot(v: Roots)
    requires ValidRoots(v) && v.rootPath != ""
    ensures GetPathFrom(v, BepInEx, false) == Ok(Combine(v.os, v.rootPath, BepInExFolder))
    ensures GetPathFrom(v, ManagerRoot, false) == Ok(Combine(v.os, v.rootPath, AppRootFolder))
  {
    assert !IsPathRooted(v.os, BepInExFolder);
    assert !IsPathRooted(v.os, AppRootFolder);
    if v.os == Windows {
      assert StartsWith(v.rootPath, DevicePrefix);
      StartsWithTransitive(Combine(v.os, v.rootPath, BepInExFolder), v.rootPath, DevicePrefix);
      StartsWithTransitive(Combine(v.os, v.rootPath, AppRootFolder), v.rootPath, DevicePrefix);
    }
  }

  /**
   * `PlusFolderViewer`. Its path queries only read the three fields, so they are the functions
   * above applied to `State()`.
   */
  class PlusFolderViewer {
    /** The platform the viewer runs on. */
    const os: Os
    /** `_rootPath`. */
    var rootPath: string
    /** `_baldiDataFolder`. */
    var baldiDataFolder: string

    function State(): Roots
      reads this`rootPath, this`baldiDataFolder
    {
      Roots(os, rootPath, baldiDataFolder)
    }

    predicate Valid()
      reads this`rootPath, this`baldiDataFolder
    {
      ValidRoots(State())
    }

    constructor(os: Os)
      ensures this.os == os && rootPath == "" && baldiDataFolder == ""
      ensures Valid()
    {
      this.os := os;
      rootPath := "";
      baldiDataFolder := "";
    }

    /**
     * `ValidateFolder`: true exactly when `Validation` accepts; the root and data folder are
     * assigned only when it accepts and `setPathIfTrue` holds.
     */
    method ValidateFolder(disk: Disk, executablePath: string, setPathIfTrue: bool) returns (r: bool)
      modifies this
      ensures r == Validation(os, disk, executablePath).Some?
      ensures r && setPathIfTrue ==>
                (rootPath, baldiDataFolder) == Validation(os, disk, executablePath).value
      ensures !(r && setPathIfTrue) ==>
                rootPath == old(rootPath) && baldiDataFolder == old(baldiDataFolder)
      ensures old(Valid()) ==> Valid()
    {
      var found := Locate(disk, executablePath);
      if found.None? {
        return false;
      }
      if setPathIfTrue {
        ValidatedRootContainsExecutable(os, disk, executablePath);
        rootPath := found.value.0;
        baldiDataFolder := found.value.1;
      }
      return true;
    }

    /** The checks of `ValidateFolder`, in its order, with the root and data folder they accept. */
    method Locate(disk: Disk, executablePath: string) returns (found: Option<(string, string)>)
      ensures found == Validation(os, disk, executablePath)
    {
      if IsNullOrWhiteSpace(executablePath) {
        return None;
      }
      var exe := GetLongPath(os, executablePath);
      if !disk.FileExists(exe) {
        return None;
      }
      var dir := GetDirectoryName(os, exe);
      if dir.None? || dir.value == "" {
        return None;
      }
      var root := GetLongPath(os, dir.value);
      if os == Windows {
        if GetFileName(os, exe) != "BALDI.exe" {
          return None;
        }
        var dataFolder := Combine(os, root, "BALDI_Data");
        if !disk.DirectoryExists(dataFolder) {
          return None;
        }
        return Some((root, dataFolder));
      }
      if os == MacOS {
        if GetFileName(os, exe) != "BALDI.app" || !UnixUtils.CheckIfUnixFileIsExecutableAt(disk, exe) {
          return None;
        }
        var dataFolder := CombineAll(os, [root, "Contents", "Resources", "Data"]);
        if !disk.DirectoryExists(dataFolder) {
          return None;
        }
        return Some((root, dataFolder));
      }
      if os == Linux {
        if GetFileName(os, exe) != "BALDI.x86_64" || !UnixUtils.CheckIfUnixFileIsExecutableAt(disk, exe) {
          return None;
        }
        var dataFolder := Combine(os, root, "BALDI_Data");
        if !disk.DirectoryExists(dataFolder) {
          return None;
        }
        return Some((root, dataFolder));
      }
      return None;
    }
  }
}
