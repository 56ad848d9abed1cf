/** `FileUtils`: the Windows long-path prefixer and the ancestor-name walks behind the containment checks. */
module FileUtils {
  import opened Wrappers
  import opened Text
  import opened Paths

  /** The manager's own folder under the game root (`Constants.AppRootFolder`). */
  const AppRootFolder: string := ".gmp"

  /** Fallback expected folder name when the game root has no parent. */
  const DefaultGameFolderName: string := "Baldi's Basics Plus"

  /**
   * `GetLongPath`: on Windows, a path without the `\\?\` prefix gets it, with every `/` turned
   * into `\`; a prefixed path, or any path on another platform, comes back unchanged.
   */
  function GetLongPath(os: Os, fullPath: string): (r: string)
    ensures os != Windows ==> r == fullPath
    ensures os == Windows ==> StartsWith(r, DevicePrefix)
    ensures os == Windows && !StartsWith(fullPath, DevicePrefix) ==> '/' !in r && |r| == |fullPath| + 4
    ensures StartsWith(fullPath, DevicePrefix) ==> r == fullPath
  {
    if os != Windows || StartsWith(fullPath, DevicePrefix) then fullPath
    else DevicePrefix + Replace(fullPath, '/', '\\')
  }

  /** Prefixing twice is prefixing once. */
  lemma GetLongPathIdempotent(os: Os, p: string)
    ensures GetLongPath(os, GetLongPath(os, p)) == GetLongPath(os, p)
  {
  }

  /** The names of the proper ancestors of a directory, nearest first (the `Parent` chain). */
  function AncestorNames(os: Os, directory: string): seq<string>
    decreases |directory|
  {
    match DirectoryParent(os, directory)
    case None => []
    case Some(parent) => [DirectoryName(os, parent)] + AncestorNames(os, parent)
  }

  /** The names in reverse order. */
  function Reversed(names: seq<string>): seq<string> {
    if names == [] then [] else [names[|names| - 1]] + Reversed(names[..|names| - 1])
  }

  /** Reversing keeps the names. */
  lemma {:induction false} ReversedMembers(names: seq<string>)
    ensures forall x :: x in Reversed(names) ==> x in names
  {
    if names != [] {
      var init := names[..|names| - 1];
      ReversedMembers(init);
      assert forall x :: x in init ==> x in names;
    }
  }

  /** The ancestors of `/s1/.../sn`, nearest first: `sn-1` back to `s1`, then the root `/`. */
  lemma {:induction false} RootedAncestors(os: Os, segs: seq<string>)
    requires os != Windows
    requires AllPlain(os, segs)
    ensures AncestorNames(os, "/" + Join(os, segs)) == RootedAncestorNames(segs)
    decreases |segs|
  {
    if segs == [] {
      assert "/" + Join(os, segs) == "/";
      RootIsTop(os);
    } else if |segs| == 1 {
      RootedAncestorsOne(os, segs);
    } else {
      RootedAncestors(os, segs[..|segs| - 1]);
      RootedAncestorsStep(os, segs);
    }
  }

  /** A single segment under the root has the root as its only ancestor. */
  lemma RootedAncestorsOne(os: Os, segs: seq<string>)
    requires os != Windows && |segs| == 1
    requires AllPlain(os, segs)
    ensures AncestorNames(os, "/" + Join(os, segs)) == RootedAncestorNames(segs)
  {
    RootedJoinParent(os, segs);
    RootIsTop(os);
    assert "/" + Join(os, segs[..0]) == "/";
    AncestorsCons(os, "/" + Join(os, segs), "/", "/", []);
    RootedAncestorNamesStep(segs);
  }

  /** One more segment adds the parent's name in front of the parent's ancestors. */
  lemma RootedAncestorsStep(os: Os, segs: seq<string>)
    requires os != Windows && |segs| > 1
    requires AllPlain(os, segs)
    requires AncestorNames(os, "/" + Join(os, segs[..|segs| - 1])) == RootedAncestorNames(segs[..|segs| - 1])
    ensures AncestorNames(os, "/" + Join(os, segs)) == RootedAncestorNames(segs)
  {
    var init := segs[..|segs| - 1];
    var p, parent := "/" + Join(os, segs), "/" + Join(os, init);
    assert DirectoryParent(os, p) == Some(parent) by { RootedJoinParent(os, segs); }
    assert DirectoryName(os, parent) == segs[|segs| - 2] by {
      RootedJoinParent(os, init);
      assert init[|init| - 1] == segs[|segs| - 2];
    }
    AncestorsStep(os, p, parent, segs);
  }

  /** The step of `RootedAncestorsStep` on the path texts alone. */
  lemma AncestorsStep(os: Os, p: string, parent: string, segs: seq<string>)
    requires |segs| > 1 && DirectoryParent(os, p) == Some(parent)
    requires DirectoryName(os, parent) == segs[|segs| - 2]
    requires AncestorNames(os, parent) == RootedAncestorNames(segs[..|segs| - 1])
    ensures AncestorNames(os, p) == RootedAncestorNames(segs)
  {
    AncestorsCons(os, p, parent, segs[|segs| - 2], RootedAncestorNames(segs[..|segs| - 1]));
    RootedAncestorNamesStep(segs);
  }

  /** What `RootedAncestors` states: the segments above the last one, reversed, then the root. */
  function RootedAncestorNames(segs: seq<string>): seq<string> {
    if segs == [] then [] else Reversed(segs[..|segs| - 1]) + ["/"]
  }

  /** One more segment puts the one before it in front of the ancestors. */
  lemma RootedAncestorNamesStep(segs: seq<string>)
    requires segs != []
    ensures RootedAncestorNames(segs) ==
            if |segs| == 1 then ["/"] else [segs[|segs| - 2]] + RootedAncestorNames(segs[..|segs| - 1])
  {
    var init := segs[..|segs| - 1];
    if init != [] {
      var above := Reversed(init[..|init| - 1]);
      assert RootedAncestorNames(init) == above + ["/"];
      assert RootedAncestorNames(segs) == [init[|init| - 1]] + above + ["/"];
    }
  }

  /** The ancestors of a directory: its parent's name, then the parent's ancestors. */
  lemma AncestorsCons(os: Os, p: string, parent: string, name: string, rest: seq<string>)
    requires DirectoryParent(os, p) == Some(parent)
    requires DirectoryName(os, parent) == name && AncestorNames(os, parent) == rest
    ensures AncestorNames(os, p) == [name] + rest
  {
  }

  /** The root `/` is its own name and has no parent. */
  lemma RootIsTop(os: Os)
    requires os != Windows
    ensures DirectoryName(os, "/") == "/" && AncestorNames(os, "/") == []
  {
    assert RootLength(os, "/") == 1;
    assert TrimEndingDirectorySeparator(os, "/") == "/";
  }

  /**
   * The walk over a full path meets the resolved segments, nearest first, and then the root: a
   * `..` in the path never names an ancestor, and the folder it leaves is not one either.
   */
  lemma FullPathAncestors(os: Os, path: string)
    requires os != Windows && IsPathRooted(os, path)
    ensures AncestorNames(os, GetFullPath(os, path)) == RootedAncestorNames(ResolveDots(Segments(os, path)))
    ensures forall k :: 0 <= k < |AncestorNames(os, GetFullPath(os, path))| ==>
              AncestorNames(os, GetFullPath(os, path))[k] != ".."
  {
    var segs := ResolveDots(Segments(os, path));
    SegmentsPlain(os, path, "");
    assert AllPlain(os, segs);
    assert GetFullPath(os, path) == "/" + Join(os, segs);
    RootedAncestors(os, segs);
    RootedAncestorNamesNoParent(segs);
  }

  /** Without a `..` segment, no ancestor is named `..`. */
  lemma RootedAncestorNamesNoParent(segs: seq<string>)
    requires forall i :: 0 <= i < |segs| ==> segs[i] != ".."
    ensures forall k :: 0 <= k < |RootedAncestorNames(segs)| ==> RootedAncestorNames(segs)[k] != ".."
  {
    if segs != [] {
      var init := segs[..|segs| - 1];
      var names := RootedAncestorNames(segs);
      forall k | 0 <= k < |names| ensures names[k] != ".." {
        if k < |names| - 1 {
          ReversedMembers(init);
          assert names[k] in Reversed(init);
          assert names[k] in init;
        }
      }
    }
  }

  /**
   * Reference definition of the walk: going up from the nearest ancestor, an ancestor named
   * `expected` (ignoring case) is met before one named exactly `limit`.
   */
  predicate FoundBeforeLimit(names: seq<string>, expected: string, limit: Option<string>) {
    names != [] && limit != Some(names[0]) &&
    (EqualsIgnoreCase(names[0], expected) || FoundBeforeLimit(names[1..], expected, limit))
  }

  /** The walk finds `expected` exactly when some ancestor matches and none up to it is the limit. */
  lemma {:induction false} FoundBeforeLimitMeaning(names: seq<string>, expected: string, limit: Option<string>)
    ensures FoundBeforeLimit(names, expected, limit) <==>
            exists k :: 0 <= k < |names| && EqualsIgnoreCase(names[k], expected) &&
                        forall j :: 0 <= j <= k ==> limit != Some(names[j])
  {
    if names != [] {
      FoundBeforeLimitMeaning(names[1..], expected, limit);
      if FoundBeforeLimit(names, expected, limit) && !EqualsIgnoreCase(names[0], expected) {
        var k :| 0 <= k < |names[1..]| && EqualsIgnoreCase(names[1..][k], expected) &&
                 forall j :: 0 <= j <= k ==> limit != Some(names[1..][j]);
        assert forall j :: 0 <= j <= k + 1 ==> limit != Some(names[j]) by {
          forall j | 0 <= j <= k + 1 ensures limit != Some(names[j]) {
            if j > 0 { assert names[j] == names[1..][j - 1]; }
          }
        }
      }
      if !FoundBeforeLimit(names, expected, limit) {
        forall k | 0 <= k < |names| && EqualsIgnoreCase(names[k], expected)
          ensures exists j :: 0 <= j <= k && limit == Some(names[j])
        {
          if k > 0 && limit != Some(names[0]) {
            assert names[k] == names[1..][k - 1];
            var j :| 0 <= j <= k - 1 && limit == Some(names[1..][j]);
            assert names[j + 1] == names[1..][j];
          }
        }
      }
    }
  }

  /**
   * `IsWithinFolderName`: walks the `Parent` chain from the directory's parent (never the directory
   * itself), stopping with false at a folder named exactly `limitParent` or at the top, and with true
   * at a folder named `expectedParent` ignoring case.
   */
  method IsWithinFolderName(os: Os, directory: string, expectedParent: string, limitParent: Option<string>)
    returns (r: bool)
    ensures r == FoundBeforeLimit(AncestorNames(os, directory), expectedParent, limitParent)
    ensures DirectoryParent(os, directory).None? ==> !r
  {
    var parent := DirectoryParent(os, directory);
    ghost var rest := AncestorNames(os, directory);
    while parent.Some? && (limitParent.None? || DirectoryName(os, parent.value) != limitParent.value)
      invariant rest == if parent.Some? then [DirectoryName(os, parent.value)] + AncestorNames(os, parent.value) else []
      invariant FoundBeforeLimit(AncestorNames(os, directory), expectedParent, limitParent) ==
                FoundBeforeLimit(rest, expectedParent, limitParent)
      decreases if parent.Some? then |parent.value| + 1 else 0
    {
      var name := DirectoryName(os, parent.value);
      if EqualsIgnoreCase(name, expectedParent) {
        return true;
      }
      rest := rest[1..];
      parent := DirectoryParent(os, parent.value);
    }
    r := false;
  }

  /** The folder name that bounds the walks: that of the game root's parent, if it has one. */
  function GameRootParentName(os: Os, gameRootPath: string): Option<string> {
    match GetDirectoryName(os, gameRootPath)
    case None => None
    case Some(d) => Some(GetFileName(os, d))
  }

  /**
   * `IsWithinManagerRootDirectory`: some ancestor of the full path is named `.gmp` (ignoring case),
   * met before the folder named like the game root's parent. `gameRootPath` is
   * `viewer.GetGameRootPath()`.
   */
  method IsWithinManagerRootDirectory(os: Os, path: string, gameRootPath: string) returns (r: bool)
    ensures var names := AncestorNames(os, GetFullPath(os, path));
            r <==> exists k :: 0 <= k < |names| && EqualsIgnoreCase(names[k], AppRootFolder) &&
                     forall j :: 0 <= j <= k ==> GameRootParentName(os, gameRootPath) != Some(names[j])
  {
    r := IsWithinFolderName(os, GetFullPath(os, path), AppRootFolder, GameRootParentName(os, gameRootPath));
    FoundBeforeLimitMeaning(AncestorNames(os, GetFullPath(os, path)), AppRootFolder, GameRootParentName(os, gameRootPath));
  }

  /**
   * A path that climbs out of the manager folder with `..` is not inside it: `/u/r/.gmp/../x` is
   * `/u/r/x`, whose walk meets `r` and then stops at `u`, the game root's parent.
   */
  lemma ParentSegmentLeavesManagerFolder()
    ensures !FoundBeforeLimit(AncestorNames(Linux, GetFullPath(Linux, "/u/r/.gmp/../x")), AppRootFolder,
                              GameRootParentName(Linux, "/u/r"))
  {
    ExampleFullPathAncestors("/u/r/.gmp/../x");
    ExampleGameRootParent();
    assert !EqualsIgnoreCase("r", AppRootFolder) && EqualsIgnoreCase("u", "u");
  }

  /** The path `/u/r/.gmp/../x` is made of the segments `u`, `r`, `.gmp`, `..`, `x`. */
  lemma ExampleSegments()
    ensures Segments(Linux, "/u/r/.gmp/../x") == ["u", "r", ".gmp", "..", "x"]
  {
    var segs := ["u", "r", ".gmp", "..", "x"];
    assert Join(Linux, ["u", "r"]) == "u/r" by { assert ["u", "r"][..1] == ["u"]; }
    assert Join(Linux, ["u", "r", ".gmp"]) == "u/r/.gmp" by { assert ["u", "r", ".gmp"][..2] == ["u", "r"]; }
    assert Join(Linux, ["u", "r", ".gmp", ".."]) == "u/r/.gmp/.." by {
      assert ["u", "r", ".gmp", ".."][..3] == ["u", "r", ".gmp"];
    }
    assert Join(Linux, segs) == "u/r/.gmp/../x" by { assert segs[..4] == ["u", "r", ".gmp", ".."]; }
    SegmentsOfRootedJoin(Linux, segs);
  }

  /** Resolving those segments drops `.gmp` together with the `..` after it. */
  lemma ExampleResolveDots()
    ensures ResolveDots(["u", "r", ".gmp", "..", "x"]) == ["u", "r", "x"]
  {
    ResolveDotsParent(["u", "r"], ".gmp");
    ResolveDotsNormal(["u", "r"]);
    assert ["u", "r", ".gmp", "..", "x"][..4] == ["u", "r"] + [".gmp", ".."];
  }

  /** The ancestors of the full path of `/u/r/.gmp/../x` are `r`, `u` and the root. */
  lemma ExampleFullPathAncestors(path: string)
    requires path == "/u/r/.gmp/../x"
    ensures AncestorNames(Linux, GetFullPath(Linux, path)) == ["r", "u", "/"]
  {
    ExampleSegments();
    ExampleResolveDots();
    ExampleRootedAncestorNames();
    FullPathAncestors(Linux, path);
  }

  /** The ancestor names of the rooted segments `u`, `r`, `x`, nearest first. */
  lemma ExampleRootedAncestorNames()
    ensures RootedAncestorNames(["u", "r", "x"]) == ["r", "u", "/"]
  {
    assert ["u", "r", "x"][..2] == ["u", "r"];
    assert ["u", "r"][..1] == ["u"];
    assert Reversed(["u"]) == ["u"];
    assert Reversed(["u", "r"]) == ["r", "u"];
  }

  /** The game root `/u/r` has the parent folder `u`. */
  lemma ExampleGameRootParent()
    ensures GameRootParentName(Linux, "/u/r") == Some("u")
  {
    assert LastSeparatorBefore(Linux, "/u/r", 4) == 2;
    assert RootLength(Linux, "/u/r") == 1 && "/u/r"[..2] == "/u";
    assert TrimSeparatorsBefore(Linux, "/u/r", 2, 1) == 2;
    assert GetDirectoryName(Linux, "/u/r") == Some("/u");
    assert LastSeparatorBefore(Linux, "/u", 2) == 0;
    assert GetFileName(Linux, "/u") == "u";
  }

  /**
   * `IsWithinGameRootDirectory`: some ancestor of the full path carries the name of the game root's parent folder
   * (or the default game folder name when there is none); no limit.
   */
  method IsWithinGameRootDirectory(os: Os, path: string, gameRootPath: string) returns (r: bool)
    ensures var names := AncestorNames(os, GetFullPath(os, path));
            r <==> exists k :: 0 <= k < |names| &&
                     EqualsIgnoreCase(names[k],
                       match GameRootParentName(os, gameRootPath) case Some(n) => n case None => DefaultGameFolderName)
  {
    var expected := match GameRootParentName(os, gameRootPath) case Some(n) => n case None => DefaultGameFolderName;
    r := IsWithinFolderName(os, GetFullPath(os, path), expected, None);
    FoundBeforeLimitMeaning(AncestorNames(os, GetFullPath(os, path)), expected, None);
  }
}
