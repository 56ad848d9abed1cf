/** `UnixUtils.CheckIfUnixFileIsExecutable` (the same check also appears in `FileUtils`). */
module UnixUtils {
  import FileSystem

  /** `System.IO.UnixFileMode`: permission and special bits, as the runtime numbers them. */
  type UnixFileMode = bv16

  const OtherExecute: UnixFileMode := 0x001
  const OtherWrite: UnixFileMode := 0x002
  const OtherRead: UnixFileMode := 0x004
  const GroupExecute: UnixFileMode := 0x008
  const GroupWrite: UnixFileMode := 0x010
  const GroupRead: UnixFileMode := 0x020
  const UserExecute: UnixFileMode := 0x040
  const UserWrite: UnixFileMode := 0x080
  const UserRead: UnixFileMode := 0x100

  /** The mode the runtime reports for a path that does not exist: `(UnixFileMode)(-1)`. */
  const MissingFileMode: UnixFileMode := 0xFFFF

  /** `Enum.HasFlag`: every bit of `flag` is set in `mode`. */
  predicate HasFlag(mode: UnixFileMode, flag: UnixFileMode) {
    mode & flag == flag
  }

  /** What `FileInfo` contributes to the check: whether the path exists and its mode. */
  datatype FileInfo = FileInfo(exists_: bool, mode: UnixFileMode) {
    /** `FileInfo.UnixFileMode`. */
    function UnixFileMode(): UnixFileMode {
      if exists_ then mode else MissingFileMode
    }
  }

  /** The `FileInfo` overload. */
  function CheckIfUnixFileIsExecutable(info: FileInfo): (r: bool)
    ensures r <==> info.UnixFileMode() & (UserExecute | GroupExecute | OtherExecute) != 0
  {
    var mode := info.UnixFileMode();
    HasFlag(mode, UserExecute) || HasFlag(mode, GroupExecute) || HasFlag(mode, OtherExecute)
  }

  /** The `FileInfo` the runtime builds for a path on the disk. */
  function FileInfoAt(disk: FileSystem.Disk, path: string): (info: FileInfo)
    ensures info.exists_ == disk.FileExists(path)
    ensures disk.FileExists(path) ==> info.mode == disk.Lookup(path).value.mode
  {
    match disk.Lookup(path)
    case Some(f) => FileInfo(true, f.mode)
    case None => FileInfo(false, 0)
  }

  /** The `string` overload: the same answer as the `FileInfo` overload for that path. */
  function CheckIfUnixFileIsExecutableAt(disk: FileSystem.Disk, path: string): (r: bool)
    ensures disk.FileExists(path) ==>
              (r <==> disk.Lookup(path).value.mode & (UserExecute | GroupExecute | OtherExecute) != 0)
    ensures !disk.FileExists(path) ==> r
  {
    CheckIfUnixFileIsExecutable(FileInfoAt(disk, path))
  }

  /** The user execute bit alone makes the file executable. */
  lemma UserExecuteSuffices(mode: UnixFileMode)
    requires HasFlag(mode, UserExecute)
    ensures CheckIfUnixFileIsExecutable(FileInfo(true, mode))
  {
  }

  /** So does the group or the other execute bit. */
  lemma GroupOrOtherExecuteSuffices(mode: UnixFileMode)
    requires HasFlag(mode, GroupExecute) || HasFlag(mode, OtherExecute)
    ensures CheckIfUnixFileIsExecutable(FileInfo(true, mode))
  {
  }

  /** Without any execute bit the answer is false, whatever the read/write and special bits. */
  lemma NoExecuteBitNotExecutable(mode: UnixFileMode)
    requires !HasFlag(mode, UserExecute) && !HasFlag(mode, GroupExecute) && !HasFlag(mode, OtherExecute)
    ensures !CheckIfUnixFileIsExecutable(FileInfo(true, mode))
    ensures !CheckIfUnixFileIsExecutable(FileInfo(true, mode | UserRead | UserWrite | GroupRead | GroupWrite | OtherRead | OtherWrite))
  {
  }

  /** A path that does not exist reports the all-ones mode, which has every execute bit. */
  lemma MissingFileReadsExecutable(info: FileInfo)
    requires !info.exists_
    ensures CheckIfUnixFileIsExecutable(info)
  {
  }
}
