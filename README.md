# GottaManagePlus profile engine, in Dafny

GottaManagePlus is a desktop mod manager for *Baldi's Basics Plus*. This project models its core:

- **The folder viewer** (`PlusFolderViewer`). It checks that a chosen executable belongs to a game
  installation on Windows, macOS or Linux. It then remembers the game root and data folder, and
  resolves paths under the root, refusing any that escape it.
- **The profile provider** (`ProfileProvider`). It keeps the list of profiles and the active
  profile. Each profile has a snapshot archive `.gmp/profiles/<name>.zip` holding the BepInEx
  configs and patchers of the game folder. The provider creates, deletes, rescans, activates and
  saves profiles. Activating a profile extracts its archive over the game folder.
- **The profile utilities**:
  - `ProfileItemUtils` converts between a profile and its metadata (the directories it uses).
  - `ProfileMetadataBinaryUtils` is the binary manifest codec: tagged sections of strings behind
    a `BinaryWriter`/`BinaryReader`.
- **Smaller helpers**:
  - `WrappedGameVersion` reads versions such as `1.2.3a`, where a trailing letter is a fourth
    component.
  - `FileUtils`: Windows long paths and the "inside the manager folder" check.
  - `UnixUtils`: the execute-permission check.
  - `StringExtensions.ManyStartWith`: the common prefix length of two strings.

Each module follows one source file. Some modules stand for the parts of .NET the core relies on:

- `Paths` models `System.IO.Path`.
- `FileSystem` models the disk and zip archives as values.
- `BinaryIO` models the `BinaryWriter`/`BinaryReader` encodings: the 7-bit length prefix, UTF-8
  and little-endian `Int32`.
- `Text` models the character and string primitives.

The provider and the viewer are classes whose fields the methods update. The provider's disk is
a field of type `Disk`, and every file operation reassigns it. Exceptions are `Result` values
whose error names the .NET exception type. A `null` path is the empty string.

Operations with loops are methods proved against a specification function. These include
`ManyStartWith`, the directory loops of `ToMetaData`/`ToProfileItem`, the manifest writer and
reader, the snapshot write loops and the extraction loop. The properties about those functions
are proved as lemmas:

- The manifest read/write round trip.
- Version parse/format round trips.
- Every path the viewer resolves stays under the game root.
- A restore pass wipes each directory at most once.
- A snapshot holds exactly the existing tracked files.

## Model

| member | source | states |
|---|---|---|
| StringExtensions.ManyStartWith | Utils/StringExtensions.cs:7-18 | 0 for an empty string; otherwise the length of the longest common prefix: the prefixes agree, and the next characters differ unless one string ends there |
| StringExtensions.PrefixLengthUnique | Utils/StringExtensions.cs:12-17 | any length at which the strings agree and then differ (or one ends) is the common prefix length, so the loop's answer is the only one |
| StringExtensions.CommonPrefixSymmetric | Utils/StringExtensions.cs:7-18 | swapping the two strings does not change the result |
| UnixUtils.CheckIfUnixFileIsExecutable | Utils/UnixUtils.cs:7-15 | true exactly when the mode has the user, group or other execute bit |
| UnixUtils.CheckIfUnixFileIsExecutableAt | Utils/UnixUtils.cs:17 | for an existing file, exactly when its mode has an execute bit; a missing file reads as executable, because its mode is all ones |
| UnixUtils.UserExecuteSuffices | Utils/UnixUtils.cs:12 | the user execute bit alone makes a file executable |
| UnixUtils.GroupOrOtherExecuteSuffices | Utils/UnixUtils.cs:13-14 | the group or other execute bit alone makes a file executable |
| UnixUtils.NoExecuteBitNotExecutable | Utils/UnixUtils.cs:12-14 | without any execute bit a file is not executable, however many read and write bits it has |
| UnixUtils.MissingFileReadsExecutable | Utils/UnixUtils.cs:9 | a file that does not exist passes the check |
| FileUtils.GetLongPath | Utils/FileUtils.cs:48-56 | off Windows the path is unchanged; on Windows the result starts with `\\?\`, a path already carrying it is unchanged, and any other path gets the prefix with every `/` turned into `\` |
| FileUtils.GetLongPathIdempotent | Utils/FileUtils.cs:53 | prefixing twice is the same as prefixing once |
| FileUtils.FoundBeforeLimitMeaning | Utils/FileUtils.cs:108-121 | the parent walk succeeds exactly when some ancestor's name equals the expected name (ignoring case) and neither it nor any ancestor below it is named like the limit |
| FileUtils.IsWithinFolderName | Utils/FileUtils.cs:108-121 | the loop's answer is the walk over the ancestor names; a directory without a parent is never inside |
| FileUtils.IsWithinManagerRootDirectory | Utils/FileUtils.cs:77-78 | true exactly when some ancestor of the full path is named `.gmp` with no ancestor up to it named like the game root's parent folder |
| FileUtils.IsWithinGameRootDirectory | Utils/FileUtils.cs:96-97 | true exactly when some ancestor of the full path is named like the game root's parent folder, or `Baldi's Basics Plus` when the root has no parent |
| FileUtils.FullPathAncestors | Utils/FileUtils.cs:78 | off Windows, the ancestors of a rooted path's full path are its segments with `.` and `..` resolved, above the last one, nearest first, then the root; none of them is `..` |
| FileUtils.RootedAncestors | Utils/FileUtils.cs:110-119 | the `Parent` walk from `/s1/.../sn` meets `sn-1` back to `s1` and then the root `/` |
| FileUtils.ParentSegmentLeavesManagerFolder | Utils/FileUtils.cs:77-78 | `/u/r/.gmp/../x` with the game root `/u/r` is not inside the manager folder: its full path `/u/r/x` has no `.gmp` ancestor |
| Paths.GetFullPath | Utils/FileUtils.cs:78 | Windows paths and unrooted paths are kept; a rooted path off Windows becomes a path starting with `/` |
| Paths.ResolveDots | Utils/FileUtils.cs:78 | the resolved segments are at most as many as the given ones, each is one of them, and none is `.` or `..` |
| Paths.ResolveDotsNormal | Utils/FileUtils.cs:78 | segments without `.` or `..` are left as they are |
| Paths.ResolveDotsParent | Utils/FileUtils.cs:78 | an ordinary segment followed by `..` cancels out |
| Paths.GetFullPathIdempotent | Utils/FileUtils.cs:78 | a full path is its own full path |
| Paths.SegmentsOfRootedJoin | Utils/FileUtils.cs:78 | splitting `/` followed by plain segments joined with `/` gives those segments back |
| Paths.RootedJoinParent | Utils/FileUtils.cs:112-119 | the `Name` of `/s1/.../sn` is `sn` and its `Parent` is `/s1/.../sn-1` |
| FolderViewer.Validation | Services/PlusFolderViewer.cs:18-122 | a blank path or an unknown OS is rejected; an accepted executable exists, has the platform's file name, is executable off Windows, the returned root is the long form of its (non-empty) directory, and the data folder exists under that root |
| FolderViewer.ValidationAccepts | Services/PlusFolderViewer.cs:18-122 | the converse: an executable that passes every check is accepted, with the long form of its directory as the root and the data folder under it |
| FolderViewer.DirectoryOfLongPath | Services/PlusFolderViewer.cs:35-43 | the directory of a path already in long form is itself in long form |
| FolderViewer.ValidatedRootContainsExecutable | Services/PlusFolderViewer.cs:35-43 | an accepted root is non-empty, already in long form, a strict prefix of the executable's path, and a prefix of the data folder |
| FolderViewer.PlusFolderViewer.ValidateFolder | Services/PlusFolderViewer.cs:18-122 | returns whether the executable is accepted; it stores the root and data folder only when accepted and asked to, and keeps the viewer's invariant |
| FolderViewer.PlusFolderViewer.Locate | Services/PlusFolderViewer.cs:27-121 | the per-platform chain of early returns computes exactly `Validation` |
| FolderViewer.PlusFolderViewer.constructor | Services/PlusFolderViewer.cs:194-195 | a new viewer has neither a root nor a data folder |
| FolderViewer.RootPath | Services/PlusFolderViewer.cs:187-191 | reading an unset root is a null-reference error; otherwise it gives the root |
| FolderViewer.SearchPath | Services/PlusFolderViewer.cs:129-140 | no segment is an out-of-range error, an unset root a null-reference error, a combined path outside the root an invalid-operation error; otherwise the long form of the root combined with the segments |
| FolderViewer.SearchPathStaysUnderRoot | Services/PlusFolderViewer.cs:134-139 | every path the viewer resolves starts with the game root |
| FolderViewer.RootedOutsideRejected | Services/PlusFolderViewer.cs:134-137 | a rooted segment outside the game root is refused |
| FolderViewer.ParentSegmentAccepted | Services/PlusFolderViewer.cs:134-139 | `..` is accepted, because the check compares the combined text before it is normalised |
| FolderViewer.SiblingFolderAccepted | Services/PlusFolderViewer.cs:134-139 | a sibling folder whose name extends the root's (`<root>2`) is accepted, because the check compares text prefixes |
| FolderViewer.TrySearchPath | Services/PlusFolderViewer.cs:147-160 | true with the resolved path exactly when `SearchPath` succeeds, else false with an empty path |
| FolderViewer.GetPathFrom | Services/PlusFolderViewer.cs:166-177 | the data folder as stored, or `BepInEx` or `.gmp` resolved under the root; an unset root is a null-reference error |
| FolderViewer.CommonFoldersUnderRoot | Services/PlusFolderViewer.cs:166-177 | with a valid root, BepInEx and `.gmp` resolve to the root combined with their names |
| GameVersion.Version.FieldCount | Models/WrappedGameVersion.cs:33-36 | how many components `Version.ToString` prints: 2 without a build, 4 with build and revision |
| GameVersion.VersionToString | Models/WrappedGameVersion.cs:36 | a non-empty string ending in a digit |
| GameVersion.SplitOn | Models/WrappedGameVersion.cs:30 | at least one piece, none containing the separator |
| GameVersion.SplitOnJoin | Models/WrappedGameVersion.cs:30 | splitting the dot-joined pieces gives the pieces back |
| GameVersion.TrimNumberWhite | Models/WrappedGameVersion.cs:19 | the trimmed text is no longer, has no white space at either end, and is unchanged when there was none |
| GameVersion.ParseComponent | Models/WrappedGameVersion.cs:19 | a parsed component lies in 0 to 2^31-1, and a canonical numeral in range parses to its value |
| GameVersion.ParseComponents | Models/WrappedGameVersion.cs:19 | every component parses, and each gives the matching value |
| GameVersion.ParseVersion | Models/WrappedGameVersion.cs:19 | fewer than 2 or more than 4 components is an argument error; a parsed version has as many fields as components |
| GameVersion.LetterRevision | Models/WrappedGameVersion.cs:27 | a letter gives a revision from 1 to 26 |
| GameVersion.Parse | Models/WrappedGameVersion.cs:9-31 | blank input is an argument error; without a trailing letter the input parses as a plain version |
| GameVersion.LetterCaseIrrelevant | Models/WrappedGameVersion.cs:27 | an upper-case trailing letter gives the same version as its lower-case form |
| GameVersion.RevisionLetter | Models/WrappedGameVersion.cs:39 | revisions 1 to 26 map back to the letter they came from |
| GameVersion.Format | Models/WrappedGameVersion.cs:33-43 | without a positive revision, the plain version string; with revision 1 to 26, a string ending in that revision's letter |
| GameVersion.Numerals | Models/WrappedGameVersion.cs:36 | one decimal numeral per component |
| GameVersion.ParseNumerals | Models/WrappedGameVersion.cs:19 | numerals of values in range parse back to those values |
| GameVersion.ParseOfNumerals | Models/WrappedGameVersion.cs:19 | 2 to 4 joined numerals parse to the version with those components, unused ones -1 |
| GameVersion.VersionToStringIsJoin | Models/WrappedGameVersion.cs:36 | a version prints as its components' numerals joined by dots |
| GameVersion.ParseOfVersionString | Models/WrappedGameVersion.cs:17-21 | parsing a printed version gives it back |
| GameVersion.ParseOfFormat | Models/WrappedGameVersion.cs:33-43 | formatting and then parsing gives the version back when its revision is at most 26 |
| GameVersion.LetterSuffixedRoundTrip | Models/WrappedGameVersion.cs:9-43 | `major.minor.build` plus a lower-case letter parses and formats back to the same text |
| GameVersion.PlainRoundTrip | Models/WrappedGameVersion.cs:36 | a version without a positive revision formats back to its plain string |
| GameVersion.FourthComponentBecomesLetter | Models/WrappedGameVersion.cs:36-42 | a plain four-component string does not format back to itself: its fourth component comes back as a letter |
| GameVersion.Components | Models/WrappedGameVersion.cs:36 | as many components as the version prints |
| GameVersion.VersionHash | Models/WrappedGameVersion.cs:53 | the top 4 bits are the low bits of the major component, the low 12 bits those of the revision |
| GameVersion.EqualsSymmetricAndHashes | Models/WrappedGameVersion.cs:45-53 | equality between wrappers is symmetric, agrees with comparing to the wrapped version, and equal wrappers hash alike |
| BinaryIO.Read7BitOfEncoded | Utils/ProfileMetadataBinaryUtils.cs:85 | the 7-bit length reader gives back an encoded length and stops after its bytes |
| BinaryIO.Int32OfEncoded | Utils/ProfileMetadataBinaryUtils.cs:89 | an encoded 32-bit integer reads back as itself, 4 bytes on |
| BinaryIO.Utf8RoundTrip | Utils/ProfileMetadataBinaryUtils.cs:100 | decoding the UTF-8 encoding of a string gives it back |
| BinaryIO.Utf8DecodeFirstOfEncoded | Utils/ProfileMetadataBinaryUtils.cs:100 | the first encoded scalar decodes to itself, with its own width |
| BinaryIO.StringOfEncoded | Utils/ProfileMetadataBinaryUtils.cs:100 | a length-prefixed string reads back as itself, just past its bytes |
| BinaryIO.StringAt | Utils/ProfileMetadataBinaryUtils.cs:85 | a string read succeeds only by consuming at least one byte within the stream |
| BinaryIO.BinaryWriter.Write | Utils/ProfileMetadataBinaryUtils.cs:35 | appends the length prefix and the UTF-8 bytes of the string |
| BinaryIO.BinaryWriter.WriteInt32 | Utils/ProfileMetadataBinaryUtils.cs:38 | appends the 4 little-endian bytes of the integer |
| BinaryIO.BinaryReader.ReadString | Utils/ProfileMetadataBinaryUtils.cs:85 | gives the string at the position and moves past it, or the read's error |
| BinaryIO.BinaryReader.ReadInt32 | Utils/ProfileMetadataBinaryUtils.cs:89 | gives the integer at the position and moves 4 bytes on, or the read's error |
| ProfileMetadataBinary.WriteSection | Utils/ProfileMetadataBinaryUtils.cs:32-47 | writes the tag, the count and each string; it counts one report per value with the stage's status |
| ProfileMetadataBinary.WriteValue | Utils/ProfileMetadataBinaryUtils.cs:44 | one more string of the section is written |
| ProfileMetadataBinary.WriteDirectoryStructure | Utils/ProfileMetadataBinaryUtils.cs:13-80 | writes the configs, patchers, mod paths and mod names sections and the end marker, with their progress reports |
| ProfileMetadataBinary.ReportsCountUp | Utils/ProfileMetadataBinaryUtils.cs:16-19 | reports count 1, 2, … under one maximum, and with any mod the last count exceeds that maximum |
| ProfileMetadataBinary.StringsAt | Utils/ProfileMetadataBinaryUtils.cs:99-100 | reading `count` strings gives exactly `count` strings and ends within the stream |
| ProfileMetadataBinary.ReadDirectoryStructure | Utils/ProfileMetadataBinaryUtils.cs:82-110 | the reading loop computes exactly the manifest reader over the stream |
| ProfileMetadataBinary.ReadInto | Utils/ProfileMetadataBinaryUtils.cs:96-100 | fills the array with exactly the strings the stream holds, or gives the read's error |
| ProfileMetadataBinary.ReadNext | Utils/ProfileMetadataBinaryUtils.cs:100 | one more string of the section is read into the array |
| ProfileMetadataBinary.ManifestRoundTrip | Utils/ProfileMetadataBinaryUtils.cs:13-110 | reading back a written manifest, followed by anything, gives each tag's list of paths and names |
| ProfileMetadataBinary.FourSectionsRead | Utils/ProfileMetadataBinaryUtils.cs:86-107 | four sections with distinct tags and the end marker read back as the map of those sections |
| ProfileMetadataBinary.OversizedSectionGivesNone | Utils/ProfileMetadataBinaryUtils.cs:90-94 | a section longer than 500000 makes the reader give null |
| ProfileMetadataBinary.NegativeSectionOverflows | Utils/ProfileMetadataBinaryUtils.cs:96 | a negative section length fails with an overflow |
| ProfileMetadataBinary.RepeatedTagRejected | Utils/ProfileMetadataBinaryUtils.cs:103 | a tag read twice fails with an argument error |
| ProfileModel.PlaceholderMods | Models/ProfileItem.cs:12-19 | the six placeholder mods, numbered 0 to 5, without paths |
| ProfileModel.NewProfileItem | Models/ProfileItem.cs:21-25 | a new profile has the given id and name, no selection, no archive, no configs or patchers, and the placeholder mods |
| ProfileModel.DefaultProfileItem | Services/ProfileProvider.cs:142-145 | the default profile, assumed to be a new profile 0 named `Default` |
| ProfileItemUtils.AddDirectoriesContents | Utils/ProfileItemUtils.cs:97-142 | the directory set holds no duplicate and holds exactly the earlier directories plus the non-empty directory of each non-empty path |
| ProfileItemUtils.AddDirectoriesConcat | Utils/ProfileItemUtils.cs:102-135 | adding two lists in turn is adding their concatenation |
| ProfileItemUtils.CollectDirectories | Utils/ProfileItemUtils.cs:102-111 | the loop adds the directories of the paths in order |
| ProfileItemUtils.ToMetaData | Utils/ProfileItemUtils.cs:97-142 | the metadata keeps the name and lists the directories of the configs, then the patchers, then the mods |
| ProfileItemUtils.MetaDataDirectories | Utils/ProfileItemUtils.cs:97-142 | the metadata's directories are distinct, and each is the non-empty directory of some non-empty tracked path |
| ProfileItemUtils.FileItems | Utils/ProfileItemUtils.cs:62-84 | one item per file, numbered on from the start, with its path relative to the game root |
| ProfileItemUtils.RetrieveInto | Utils/ProfileItemUtils.cs:62-84 | the loop appends the files of the folder, numbered after the existing items |
| ProfileItemUtils.AddDirectory | Utils/ProfileItemUtils.cs:27-54 | one listed directory adds its files to patchers or configs, by the name of its full path when that path's parent is named BepInEx, and otherwise nothing |
| ProfileItemUtils.WithDirectories | Utils/ProfileItemUtils.cs:24-55 | only the configs and patchers lists change, and only by growing |
| ProfileItemUtils.WithDirectoriesNumbered | Utils/ProfileItemUtils.cs:62-84 | configs and patchers stay numbered by their position |
| ProfileItemUtils.WithDirectoriesTaken | Utils/ProfileItemUtils.cs:24-55 | every added config or patcher is a file directly inside a listed folder of that kind |
| ProfileItemUtils.IgnoredDirectory | Utils/ProfileItemUtils.cs:27-54 | a missing folder, one whose full path is not directly under BepInEx, or the plugins folder adds nothing |
| ProfileItemUtils.ToProfileItem | Utils/ProfileItemUtils.cs:19-90 | an unset root is a null-reference error that adds nothing; otherwise a new profile numbered by the collection's size is built from the listed directories and appended |
| ProfileItemUtils.BuiltProfile | Utils/ProfileItemUtils.cs:19-90 | the built profile keeps id, name and placeholder mods, is unselected, numbers its configs and patchers by position, and takes each from a listed folder of the right kind |
| ProfileProvider.InsertByName | Services/ProfileProvider.cs:130 | inserting keeps the list ordered by file name and adds just that file |
| ProfileProvider.SortByName | Services/ProfileProvider.cs:130 | ordered by file name, and a permutation of the files |
| ProfileProvider.RescannedNames | Services/ProfileProvider.cs:130-152 | a rescan yields at least one profile, and just the default one when the folder is empty |
| ProfileProvider.RescanSelection | Services/ProfileProvider.cs:155-164 | the previous active index when still in range, else 0; with none, the default selection when in range, else 0 |
| ProfileProvider.ProfilesFolder | Services/ProfileProvider.cs:205-222 | with no game root the profiles folder is a null-reference error |
| ProfileProvider.GatherFolders | Services/ProfileProvider.cs:238-268 | with no game root the gather fails; on success its root is the game root |
| ProfileProvider.FolderItems | Services/ProfileProvider.cs:244-265 | nothing for a missing folder; else one item per file directly inside it, numbered from 0, with its path relative to the root |
| ProfileProvider.PlanGeneration | Services/ProfileProvider.cs:295-320 | with no game root the gather fails; a planned generation uses the archive path and the temp path |
| ProfileProvider.Generated | Services/ProfileProvider.cs:290-320 | id, name and selection are kept; a failed gather changes nothing; otherwise configs and patchers are listed afresh and the mods cleared, and the profile points at its archive when that resolves |
| ProfileProvider.SnapshotEntriesExact | Services/ProfileProvider.cs:352-416 | the snapshot holds an entry for exactly the non-empty tracked paths that name an existing file, and no directory entry |
| ProfileProvider.StoredArchive | Services/ProfileProvider.cs:421-424 | a completed snapshot leaves the archive at the profile's path, no temp file, and every other file as it was |
| ProfileProvider.ExtractAllWipesOnce | Services/ProfileProvider.cs:514-523 | a restore pass wipes each directory at most once, outer ones first, and the wiped list only grows |
| ProfileProvider.FailedPassStops | Services/ProfileProvider.cs:503-535 | once a pass has failed, the remaining entries change nothing |
| ProfileProvider.ExtractedEntryWritten | Services/ProfileProvider.cs:527-530 | a file entry whose target resolves is written with its content |
| ProfileProvider.ArchiveAt | Services/ProfileProvider.cs:486-495 | an archive is found only at an existing non-empty path whose content opens as an archive |
| ProfileProvider.PlanRestore | Services/ProfileProvider.cs:467-535 | a restore depends on the generation plan, whether the root is set, and the extraction pass over the archive when there is one |
| ProfileProvider.ClearedSelection | Services/ProfileProvider.cs:179-181 | only the current profile loses its selection flag |
| ProfileProvider.Names | Services/ProfileProvider.cs:34 | the profile names, in list order |
| ProfileProvider.FileNames | Services/ProfileProvider.cs:130-139 | each archive file's name without the extension |
| ProfileProvider.ProfileProvider.constructor | Services/ProfileProvider.cs:24-35 | a new provider has no profiles, no current or last restored profile, and no events raised |
| ProfileProvider.ProfileProvider.GetActiveProfile | Services/ProfileProvider.cs:171 | no current profile is a null-reference error; -1 when a rescan dropped it; else its index |
| ProfileProvider.ProfileProvider.GetInstanceActiveProfile | Utils/ProfileProviderExtensions.cs:8-9 | the current profile when it is in the list; a null-reference error with none, an out-of-range error when it was dropped |
| ProfileProvider.ProfileProvider.ListGathered | Services/ProfileProvider.cs:244-272 | configs and patchers listed afresh from existing folders, mods cleared |
| ProfileProvider.ProfileProvider.GatherProfileFolderInformation | Services/ProfileProvider.cs:224-287 | succeeds exactly when the four paths resolve; a failure leaves the profile's lists as they were |
| ProfileProvider.ProfileProvider.AppendEntry | Services/ProfileProvider.cs:362-365 | one write adds the entry to the temp archive or, failing, leaves it unchanged |
| ProfileProvider.ProfileProvider.WriteEntries | Services/ProfileProvider.cs:352-416 | each write loop adds the snapshot entries of its paths, stopping at a failed write |
| ProfileProvider.ProfileProvider.WriteSnapshot | Services/ProfileProvider.cs:327-455 | success stores the snapshot at the archive path and removes the temp file; failure only removes the temp file; a missing folder for either always fails |
| ProfileProvider.ProfileProvider.WriteBack | Services/ProfileProvider.cs:290 | the regenerated profile replaces the old one, keeping names, selection and the invariant |
| ProfileProvider.ProfileProvider.GenerateItem | Services/ProfileProvider.cs:290-465 | the profile becomes `Generated`; the disk and the result follow each outcome of the plan |
| ProfileProvider.ProfileProvider.GenerateProfileData | Services/ProfileProvider.cs:290-465 | as `GenerateItem`, on the profile at the index; names, selection flags and the invariant are kept |
| ProfileProvider.ProfileProvider.ExtractArchive | Services/ProfileProvider.cs:503-535 | the extraction loop leaves the disk as the restore pass does, and completes exactly when the pass does not fail |
| ProfileProvider.ProfileProvider.UnzipAndDistributeProfileContent | Services/ProfileProvider.cs:467-548 | the last restored profile is regenerated without storing; otherwise an unset root is a null-reference error, no archive gives false, and else the archive is extracted |
| ProfileProvider.ProfileProvider.ClearSelection | Services/ProfileProvider.cs:179-181 | afterwards no profile is selected, and only the current profile changed |
| ProfileProvider.ProfileProvider.Select | Services/ProfileProvider.cs:184-187 | the profile at the index becomes current and the only selected one, and one update event is raised |
| ProfileProvider.ProfileProvider.SetActiveProfile | Services/ProfileProvider.cs:177-190 | an index outside the list is an out-of-range error after clearing the selection; otherwise the profile is selected and restored |
| ProfileProvider.LoadedProfiles | Services/ProfileProvider.cs:130-139 | the list a rescan builds from archive names: one unselected profile per name, in order, with ids `0, 1, …`, each generated without storing |
| ProfileProvider.LoadedProfilesStep | Services/ProfileProvider.cs:136-138 | loading one more name appends exactly that name's generated profile |
| ProfileProvider.RescannedFromRebuild | Services/ProfileProvider.cs:118-152 | creating the folder, listing its sorted files and rebuilding the list (loading each archive, or storing the default profile when there is none) gives the outcome `Rescanned` describes, with a non-empty list on success |
| ProfileProvider.RescannedListsNames | Services/ProfileProvider.cs:130-152 | after a successful rescan the names are those the folder yields (the archive names, or just the default name) |
| ProfileProvider.SelectedWhenNotInList | Services/ProfileProvider.cs:179-187 | selecting from a list the current profile is not part of does not depend on that profile |
| ProfileProvider.SelectedKeepsNames | Services/ProfileProvider.cs:177-190 | selecting a profile changes no name |
| ProfileProvider.RestoredKeepsNames | Services/ProfileProvider.cs:467-548 | restoring a profile changes no name in the list |
| ProfileProvider.ActivatedBySelection | Services/ProfileProvider.cs:155-164 | after a completed rescan, selecting and restoring the profile at `RescanSelection` is the activation the update performs |
| ProfileProvider.UpdatedLists | Services/ProfileProvider.cs:115-165 | an update whose result is not an error lists the names the folder yields, and a completed update makes the profile at `RescanSelection` current |
| ProfileProvider.ProfileProvider.LoadProfile | Services/ProfileProvider.cs:132-138 | the list grows by the next archive's generated profile (generated without storing, so the disk is unchanged); the result is an error exactly when that profile's archive cannot be read |
| ProfileProvider.ProfileProvider.LoadProfiles | Services/ProfileProvider.cs:130-139 | `ListingOutcome`: either every archive is loaded, in order, and the result is true, or loading stops at the first unreadable archive, which is still in the list, with its error |
| ProfileProvider.ProfileProvider.StoreDefaultProfile | Services/ProfileProvider.cs:142-152 | the list holds just the default profile, and the profile, the disk and the result are those of generating it with a stored snapshot |
| ProfileProvider.ProfileProvider.Rebuild | Services/ProfileProvider.cs:130-152 | with archives, the outcome of loading them all; without, the outcome of storing the default profile |
| ProfileProvider.ProfileProvider.Rescan | Services/ProfileProvider.cs:118-152 | the current profile keeps its id but leaves the list; the folder is created, and the list, disk and result are as `Rescanned` describes |
| ProfileProvider.ProfileProvider.Activate | Services/ProfileProvider.cs:155-164 | a rescan that did not complete is returned as is with nothing changed; otherwise the profile at `RescanSelection` is selected and restored (`Activated`) |
| ProfileProvider.ProfileProvider.RescanAndActivate | Services/ProfileProvider.cs:118-165 | a rescan followed by the activation of its outcome |
| ProfileProvider.ProfileProvider.UpdateProfilesData | Services/ProfileProvider.cs:115-165 | an unresolvable folder gives false and changes nothing; otherwise the new state is `Updated`: the rescan of the folder followed by its activation, so the names are those of the folder and a completed update activates `RescanSelection` |
| ProfileProvider.ProfileProvider.AddProfile | Services/ProfileProvider.cs:46-66 | a name already taken (ignoring case) gives false and changes nothing; else the profile is appended with the next id and generated with a stored snapshot; unless that generation raises an error the new profile is then selected and restored, whatever the generation returned (`Added`) |
| ProfileProvider.ProfileProvider.GenerateAndActivate | Services/ProfileProvider.cs:61-65 | the appended profile is generated with a stored snapshot and, unless that throws, selected and restored whatever it returned (`Added`); names are kept and a success leaves only the new profile selected |
| ProfileProvider.ProfileProvider.GenerateAppended | Services/ProfileProvider.cs:62-63 | the appended profile, with the next id and the name given, becomes the profile its stored generation yields (`GenerationEffect`), and the names are kept |
| ProfileProvider.ProfileProvider.ActivateAppended | Services/ProfileProvider.cs:64-65 | the appended profile becomes current and the only selected one, and is restored (`Restored`) |
| ProfileProvider.ProfileProvider.CheckDeletable | Services/ProfileProvider.cs:79-88 | accepts exactly an existing non-empty archive path whose full path lies inside the manager folder, with the root set |
| ProfileProvider.ProfileProvider.DeleteProfile | Services/ProfileProvider.cs:73-104 | an index outside the list is an out-of-range error, a non-deletable archive gives false, and both change nothing; a deletable archive is deleted and the list rebuilt and reactivated as `UpdateProfilesData` does (`Updated`), the result being true unless that rebuild raised an error; when the profiles folder cannot be resolved, the archive is deleted, nothing else changes and the result is true |
| ProfileProvider.ProfileProvider.SaveActiveProfile | Services/ProfileProvider.cs:196 | no current profile, or a dropped one, is an error that changes nothing; otherwise the current profile is generated with a stored snapshot |

## Left out

- Progress reporting, creation dates and `Debug` output are left out, because they do not affect the results. The profile writer's `(current, max, status)` reports are the exception: they are kept.
- `OnProfilesUpdate` subscribers are left out; only the number of times the event is raised is kept.
- `async`/`await` and concurrency are left out: every operation runs to completion, one at a time.
- LZMA compression and the zip file format are left out. An archive is a file whose content is its list of entries.
- The profile manifest is not written or read by the provider shown, so `ProfileMetadataBinaryUtils` is modelled on its own.
- The snapshot reads every tracked file from the disk as it was before the generation began. The source reads them while writing the temp archive, which is a different file.
- Opening the temp archive truncates it in the source. In the model, writing the archive replaces the whole file.
- A write failure inside the snapshot loops (an I/O error) is a nondeterministic choice.
- Culture-sensitive `OrderBy` and `StartsWith` are modelled as ordinal comparison. `ToLower` and `IgnoreCase` comparisons cover ASCII letters only.
- Profiles and collections are values, so the model has no aliasing. `_lastUnzippedProfileItem` is kept as the name it is compared by. A current profile dropped by a rescan is kept as a detached copy.
- Extraction writes every entry to `SearchPath(key)`. Opening a file stream is not modelled beyond the write it performs.
- `Path.GetFullPath` is modelled off Windows only, as the resolution of `.`, `..` and repeated separators in a rooted path. Windows paths are kept as they are, because the core's Windows paths carry the `\\?\` prefix, which .NET leaves unnormalised. Unrooted paths are kept as well, because the current directory is not modelled. The executable path given to the viewer is taken as already full.
- The disk is keyed by path text: `File.Exists`, `Directory.Exists`, `File.Delete` and the other file operations do not resolve `.` or `..`.
- Paths.GetRelativePath: .NET's version first takes both paths' full paths and ignores case on Windows and macOS; the model compares the paths as given, ordinally.
- ProfileModel.DefaultProfileItem: `ProfileItem.Default` is defined in a file that is not part of this model; the model assumes it is a new `ProfileItem(0, "Default")`, with no content.
- The viewer's queries are functions of its stored root, data folder and OS.
- In `GatherProfileFolderInformation`, the mods branch checks the configs path and does nothing; the model does nothing there either. The catch-and-restore is modelled as "the profile changes only once all four paths resolve", because every exception comes from resolving a path.
- `GetPathFrom` is modelled with the arguments the core passes.
- Files on disk are kept in enumeration order. `Directory.GetFiles`' platform order is not modelled.
- GameVersion.Parse: only ASCII letters count as the trailing letter, while the source's `char.IsLetter` also accepts other Unicode letters.
- GameVersion.ParseOfFormat: covers revisions up to 26. Above that the letter is not a Latin letter and the text does not parse back.
- ProfileProvider.ProfileProvider.LoadProfiles: an archive that cannot be read raises an error in the source, which ends the loop; the model returns that error after appending the failing profile, and the later archives are not loaded.
- StringExtensions.ManyStartWith: characters are Unicode scalar values, while C# compares UTF-16 code units, so the count differs when a character outside the Basic Multilingual Plane lies in the common prefix (it counts 1 here and 2 in the source).
- GameVersion.RevisionLetter: a Dafny `char` cannot be a lone surrogate, so a revision whose letter is a surrogate code unit gives U+FFFD at once; the source keeps the lone surrogate in the string and only its encoding turns it into U+FFFD. Strings in general are sequences of Unicode scalar values here, not of UTF-16 code units.
- BinaryIO.StringAt: decodes UTF-8 strictly and gives a format error on an invalid sequence, where .NET's default decoder substitutes U+FFFD and succeeds.
- BinaryIO.BinaryReader.ReadString: as `BinaryIO.StringAt`, invalid UTF-8 is a format error rather than replacement characters.
