/**
 * The subset of `System.IO.Path` and `DirectoryInfo` the core relies on: separators and roots per
 * platform, `Combine`, `GetDirectoryName`, `GetFileName`, `GetFileNameWithoutExtension`,
 * `GetRelativePath`, the `.`/`..` resolution of `GetFullPath`, and a directory's `Name` and `Parent`.
 */
module Paths {
  import opened Wrappers
  import opened Text

  /** The platform the runtime reports (`OperatingSystem.IsWindows()` and so on). */
  datatype Os = Windows | MacOS | Linux | OtherOs

  function DirectorySeparatorChar(os: Os): char {
    if os == Windows then '\\' else '/'
  }

  /** On Windows both `\` and `/` separate directories; elsewhere only `/`. */
  predicate IsDirectorySeparator(os: Os, c: char) {
    c == '/' || (os == Windows && c == '\\')
  }

  /** The Windows device prefix `\\?\` that lifts the MAX_PATH limit. */
  const DevicePrefix: string := "\\\\?\\"

  /** Length of the root: `/` on Unix; a drive (`C:`, `C:\`), a device-prefixed drive or a leading separator on Windows. */
  function RootLength(os: Os, p: string): (n: nat)
    ensures n <= |p|
  {
    if os != Windows then (if |p| > 0 && p[0] == '/' then 1 else 0)
    else if StartsWith(p, DevicePrefix) then
      (if |p| >= 6 && IsAsciiLetter(p[4]) && p[5] == ':' then
         (if |p| > 6 && IsDirectorySeparator(os, p[6]) then 7 else 6)
       else 4)
    else if |p| >= 2 && IsAsciiLetter(p[0]) && p[1] == ':' then
      (if |p| > 2 && IsDirectorySeparator(os, p[2]) then 3 else 2)
    else if |p| > 0 && IsDirectorySeparator(os, p[0]) then 1
    else 0
  }

  /** `Path.IsPathRooted`. */
  predicate IsPathRooted(os: Os, p: string) {
    (|p| > 0 && IsDirectorySeparator(os, p[0])) ||
    (os == Windows && |p| >= 2 && IsAsciiLetter(p[0]) && p[1] == ':')
  }

  /** `Path.Combine(a, b)`: a rooted or empty second part wins or drops out; otherwise one separator joins. */
  function Combine(os: Os, a: string, b: string): (r: string)
    ensures b == "" ==> r == a
    ensures a == "" ==> r == b
    ensures a != "" && b != "" && !IsPathRooted(os, b) ==> StartsWith(r, a) && |r| > |a|
    ensures a != "" && IsPathRooted(os, b) ==> r == b
  {
    if b == "" then a
    else if a == "" then b
    else if IsPathRooted(os, b) then b
    else if IsDirectorySeparator(os, a[|a| - 1]) then a + b
    else a + [DirectorySeparatorChar(os)] + b
  }

  /** `Path.Combine(params string[])`: the parts combined pairwise from the left. */
  function CombineAll(os: Os, parts: seq<string>): string {
    if parts == [] then "" else Combine(os, CombineAll(os, parts[..|parts| - 1]), parts[|parts| - 1])
  }

  /** Index of the last directory separator before position `hi`, or -1. */
  function LastSeparatorBefore(os: Os, p: string, hi: nat): (k: int)
    requires hi <= |p|
    ensures -1 <= k < hi
    ensures k >= 0 ==> IsDirectorySeparator(os, p[k])
    ensures forall j :: k < j < hi ==> !IsDirectorySeparator(os, p[j])
  {
    if hi == 0 then -1
    else if IsDirectorySeparator(os, p[hi - 1]) then hi - 1
    else LastSeparatorBefore(os, p, hi - 1)
  }

  /** Moves `end` left over a run of separators, never into the root. */
  function TrimSeparatorsBefore(os: Os, p: string, end: nat, root: nat): (e: nat)
    requires root <= end <= |p|
    ensures root <= e <= end
    ensures e > root ==> !IsDirectorySeparator(os, p[e - 1])
  {
    if end > root && IsDirectorySeparator(os, p[end - 1]) then TrimSeparatorsBefore(os, p, end - 1, root)
    else end
  }

  /** `Path.GetDirectoryName`: `None` for an empty path or a root; the text before the last separator otherwise. */
  function GetDirectoryName(os: Os, p: string): (r: Option<string>)
    ensures r.Some? ==> |r.value| < |p| && r.value == p[..|r.value|]
    ensures r.None? <==> |p| <= RootLength(os, p)
  {
    var root := RootLength(os, p);
    if |p| <= root then None
    else
      var k := LastSeparatorBefore(os, p, |p|);
      var end := if k < root then root else k;
      Some(p[..TrimSeparatorsBefore(os, p, end, root)])
  }

  /** `Path.GetFileName`: the text after the last separator (and after the root). */
  function GetFileName(os: Os, p: string): (r: string)
    ensures |r| <= |p| && r == p[|p| - |r|..]
    ensures forall i :: 0 <= i < |r| ==> !IsDirectorySeparator(os, r[i])
  {
    var root := RootLength(os, p);
    var k := LastSeparatorBefore(os, p, |p|);
    var start := if k < root then root else k + 1;
    assert forall i :: start <= i < |p| ==> !IsDirectorySeparator(os, p[i]) by {
      if k < root { RootHasLastSeparators(os, p, root, k); }
    }
    p[start..]
  }

  /** No separator follows the root when the last separator lies inside it. */
  lemma RootHasLastSeparators(os: Os, p: string, root: nat, k: int)
    requires root == RootLength(os, p) && k == LastSeparatorBefore(os, p, |p|) && k < root
    ensures forall i :: root <= i < |p| ==> !IsDirectorySeparator(os, p[i])
  {
  }

  /** `Path.GetFileNameWithoutExtension`: the file name cut at its last `.`. */
  function GetFileNameWithoutExtension(os: Os, p: string): (r: string)
    ensures '.' in GetFileName(os, p) ==> |r| < |GetFileName(os, p)|
    ensures '.' !in GetFileName(os, p) ==> r == GetFileName(os, p)
  {
    var name := GetFileName(os, p);
    var dot := LastIndexOf(name, '.', |name|);
    if dot < 0 then name else name[..dot]
  }

  function LastIndexOf(s: string, c: char, hi: nat): (k: int)
    requires hi <= |s|
    ensures -1 <= k < hi
    ensures k >= 0 ==> s[k] == c
    ensures k < 0 ==> c !in s[..hi]
  {
    if hi == 0 then -1 else if s[hi - 1] == c then hi - 1 else LastIndexOf(s, c, hi - 1)
  }

  /** The non-empty separator-delimited segments of `s`, left to right. */
  function Segments(os: Os, s: string): seq<string> {
    SplitFrom(os, s, "")
  }

  function SplitFrom(os: Os, s: string, current: string): seq<string>
    decreases |s|
  {
    if s == [] then (if current == [] then [] else [current])
    else if IsDirectorySeparator(os, s[0]) then
      (if current == [] then [] else [current]) + SplitFrom(os, s[1..], "")
    else SplitFrom(os, s[1..], current + [s[0]])
  }

  /** The segments joined with the platform separator. */
  function Join(os: Os, parts: seq<string>): string {
    if parts == [] then ""
    else if |parts| == 1 then parts[0]
    else Join(os, parts[..|parts| - 1]) + [DirectorySeparatorChar(os)] + parts[|parts| - 1]
  }

  function CommonSegmentCount(a: seq<string>, b: seq<string>): (k: nat)
    ensures k <= |a| && k <= |b| && a[..k] == b[..k]
  {
    if a == [] || b == [] || a[0] != b[0] then 0
    else
      var k := CommonSegmentCount(a[1..], b[1..]);
      assert a[..k + 1] == [a[0]] + a[1..][..k];
      assert b[..k + 1] == [b[0]] + b[1..][..k];
      1 + k
  }

  function Repeat(s: string, n: nat): (r: seq<string>)
    ensures |r| == n && forall i :: 0 <= i < n ==> r[i] == s
  {
    if n == 0 then [] else Repeat(s, n - 1) + [s]
  }

  /**
   * `Path.GetRelativePath(relativeTo, path)`: `path` itself when the roots differ, `.` for the same
   * directory, otherwise one `..` per segment of `relativeTo` below the common ancestor, then the
   * rest of `path`.
   */
  function GetRelativePath(os: Os, relativeTo: string, path: string): string {
    var r1 := RootLength(os, relativeTo);
    var r2 := RootLength(os, path);
    if relativeTo[..r1] != path[..r2] then path
    else
      var a := Segments(os, relativeTo[r1..]);
      var b := Segments(os, path[r2..]);
      var k := CommonSegmentCount(a, b);
      if k == |a| && k == |b| then "."
      else Join(os, Repeat("..", |a| - k) + b[k..])
  }

  /** `Path.TrimEndingDirectorySeparator`: one trailing separator dropped unless the path is a root. */
  function TrimEndingDirectorySeparator(os: Os, p: string): (r: string)
    ensures |r| <= |p|
  {
    if |p| > RootLength(os, p) && IsDirectorySeparator(os, p[|p| - 1]) then p[..|p| - 1] else p
  }

  /** `DirectoryInfo.Name`: the root itself for a root, otherwise the last segment. */
  function DirectoryName(os: Os, p: string): string {
    if |p| <= RootLength(os, p) then p
    else GetFileName(os, TrimEndingDirectorySeparator(os, p))
  }

  /** `DirectoryInfo.Parent`: the directory part of the trimmed path, `None` at a root. */
  function DirectoryParent(os: Os, p: string): (r: Option<string>)
    ensures r.Some? ==> |r.value| < |p|
  {
    GetDirectoryName(os, TrimEndingDirectorySeparator(os, p))
  }

  // -----------------------------------------------------------------------------------------------
  // Full paths (`Path.GetFullPath`, as `new DirectoryInfo(path)` applies it)

  /** A segment as `Segments` yields it: non-empty and free of separators. */
  predicate PlainSegment(os: Os, s: string) {
    s != "" && forall j :: 0 <= j < |s| ==> !IsDirectorySeparator(os, s[j])
  }

  /** Every segment of a path is plain. */
  /** Every segment is plain. */
  predicate AllPlain(os: Os, segs: seq<string>) {
    forall i :: 0 <= i < |segs| ==> PlainSegment(os, segs[i])
  }

  lemma {:induction false} SegmentsPlain(os: Os, s: string, current: string)
    requires forall j :: 0 <= j < |current| ==> !IsDirectorySeparator(os, current[j])
    ensures forall i :: 0 <= i < |SplitFrom(os, s, current)| ==> PlainSegment(os, SplitFrom(os, s, current)[i])
    decreases |s|
  {
    if s != [] {
      if IsDirectorySeparator(os, s[0]) {
        SegmentsPlain(os, s[1..], "");
      } else {
        SegmentsPlain(os, s[1..], current + [s[0]]);
      }
    }
  }

  /**
   * The segments with `.` and `..` resolved left to right: `.` is dropped, and `..` drops the
   * segment before it, staying at the root when there is none.
   */
  function ResolveDots(segs: seq<string>): (r: seq<string>)
    ensures |r| <= |segs|
    ensures forall i :: 0 <= i < |r| ==> r[i] != "." && r[i] != ".." && r[i] in segs
    decreases |segs|
  {
    if segs == [] then []
    else
      var init := ResolveDots(segs[..|segs| - 1]);
      var last := segs[|segs| - 1];
      assert forall x :: x in segs[..|segs| - 1] ==> x in segs;
      if last == "." then init
      else if last == ".." then (if init == [] then [] else init[..|init| - 1])
      else init + [last]
  }

  /** Segments without `.` or `..` are already resolved, so resolving is idempotent. */
  lemma {:induction false} ResolveDotsNormal(segs: seq<string>)
    requires forall i :: 0 <= i < |segs| ==> segs[i] != "." && segs[i] != ".."
    ensures ResolveDots(segs) == segs
    decreases |segs|
  {
    if segs != [] {
      ResolveDotsNormal(segs[..|segs| - 1]);
      assert segs == segs[..|segs| - 1] + [segs[|segs| - 1]];
    }
  }

  /** `a/x/..` resolves like `a`: a `..` cancels the ordinary segment before it. */
  lemma ResolveDotsParent(segs: seq<string>, x: string)
    requires x != "." && x != ".."
    ensures ResolveDots(segs + [x, ".."]) == ResolveDots(segs)
  {
    assert (segs + [x, ".."])[..|segs| + 1] == segs + [x];
    assert (segs + [x])[..|segs|] == segs;
  }

  /**
   * `Path.GetFullPath` as `new DirectoryInfo(p)` applies it. Off Windows a rooted path becomes `/`
   * followed by its resolved segments (repeated separators, `.` and `..` gone). A Windows path is
   * kept: the core's Windows paths carry the `\\?\` prefix, which .NET leaves unnormalised. An
   * unrooted path is kept too, the current directory not being part of the model.
   */
  function GetFullPath(os: Os, p: string): (r: string)
    ensures os == Windows || !IsPathRooted(os, p) ==> r == p
    ensures os != Windows && IsPathRooted(os, p) ==> |r| > 0 && r[0] == '/'
  {
    if os == Windows || !IsPathRooted(os, p) then p
    else "/" + Join(os, ResolveDots(Segments(os, p)))
  }

  /** The parts of a joined path: its last segment is the directory's name, the rest its parent. */
  lemma RootedJoinParent(os: Os, segs: seq<string>)
    requires os != Windows && segs != [] && AllPlain(os, segs)
    ensures DirectoryName(os, "/" + Join(os, segs)) == segs[|segs| - 1]
    ensures DirectoryParent(os, "/" + Join(os, segs)) == Some("/" + Join(os, segs[..|segs| - 1]))
  {
    var init, last := segs[..|segs| - 1], segs[|segs| - 1];
    var head := "/" + Join(os, init);
    assert PlainSegment(os, last);
    assert AllPlain(os, init) by {
      forall i | 0 <= i < |init| ensures PlainSegment(os, init[i]) { assert init[i] == segs[i]; }
    }
    JoinShape(os, init);
    if init == [] {
      assert head == "/" && "/" + Join(os, segs) == head + last;
    } else {
      assert Join(os, segs) == Join(os, init) + "/" + last by { assert DirectorySeparatorChar(os) == '/'; }
      assert head[|head| - 1] == Join(os, init)[|Join(os, init)| - 1];
      ConcatAssociates("/", Join(os, init), "/", last);
    }
    ChildParts(os, head, last);
  }

  /** Concatenation of four strings, regrouped. */
  lemma ConcatAssociates(a: string, b: string, c: string, d: string)
    ensures a + (b + c + d) == a + b + c + d
  {
  }

  /** The parts of `head/last` (or `/last` under the root): `last` names it, `head` is its parent. */
  lemma ChildParts(os: Os, head: string, last: string)
    requires os != Windows && PlainSegment(os, last)
    requires |head| > 0 && head[0] == '/'
    requires head != "/" ==> !IsDirectorySeparator(os, head[|head| - 1])
    ensures var p := (if head == "/" then head else head + "/") + last;
            DirectoryName(os, p) == last && DirectoryParent(os, p) == Some(head)
  {
    var dir := if head == "/" then head else head + "/";
    var p := dir + last;
    var k := |dir| - 1;
    assert p[k] == '/' && p[k + 1..] == last && p[..k] == dir[..k];
    forall j | k < j < |p| ensures !IsDirectorySeparator(os, p[j]) {
      assert p[j] == last[j - k - 1];
    }
    assert RootLength(os, p) == 1;
    assert TrimEndingDirectorySeparator(os, p) == p;
    LastSeparatorAt(os, p, k, |p|);
    if head != "/" {
      assert p[k - 1] == head[|head| - 1];
      assert TrimSeparatorsBefore(os, p, k, 1) == k;
      assert p[..k] == head;
    } else {
      assert k == 0 && TrimSeparatorsBefore(os, p, 1, 1) == 1;
      assert p[..1] == "/";
    }
  }

  /** A join of plain segments is empty only for none, ends in a non-separator and starts with one. */
  lemma {:induction false} JoinShape(os: Os, segs: seq<string>)
    requires os != Windows
    requires AllPlain(os, segs)
    ensures segs == [] <==> Join(os, segs) == ""
    ensures segs != [] ==> !IsDirectorySeparator(os, Join(os, segs)[|Join(os, segs)| - 1])
    ensures segs != [] ==> !IsDirectorySeparator(os, Join(os, segs)[0])
    ensures |segs| > 1 ==> Join(os, segs) == Join(os, segs[..|segs| - 1]) + "/" + segs[|segs| - 1]
    decreases |segs|
  {
    if |segs| > 1 {
      JoinShape(os, segs[..|segs| - 1]);
    }
  }

  /** The last separator before `hi` is the one at `k` when none follows it. */
  lemma {:induction false} LastSeparatorAt(os: Os, p: string, k: nat, hi: nat)
    requires k < hi <= |p| && IsDirectorySeparator(os, p[k])
    requires forall j :: k < j < hi ==> !IsDirectorySeparator(os, p[j])
    ensures LastSeparatorBefore(os, p, hi) == k
    decreases hi
  {
    if hi - 1 != k {
      LastSeparatorAt(os, p, k, hi - 1);
    }
  }

  /** Splitting text without separators only extends the segment being read. */
  lemma {:induction false} SplitFromPlain(os: Os, w: string, current: string)
    requires forall j :: 0 <= j < |w| ==> !IsDirectorySeparator(os, w[j])
    ensures SplitFrom(os, w, current) == if current + w == "" then [] else [current + w]
    decreases |w|
  {
    if w == [] {
      assert current + w == current;
    } else {
      SplitFromPlain(os, w[1..], current + [w[0]]);
      assert current + [w[0]] + w[1..] == current + w;
    }
  }

  /** Splitting at a separator: the segments before it and those after it. */
  lemma {:induction false} SplitFromConcat(os: Os, a: string, b: string, current: string)
    requires b != [] && IsDirectorySeparator(os, b[0])
    ensures SplitFrom(os, a + b, current) == SplitFrom(os, a, current) + SplitFrom(os, b, "")
    decreases |a|
  {
    if a == [] {
      assert a + b == b;
    } else {
      assert (a + b)[0] == a[0] && (a + b)[1..] == a[1..] + b;
      if IsDirectorySeparator(os, a[0]) {
        SplitFromConcat(os, a[1..], b, "");
      } else {
        SplitFromConcat(os, a[1..], b, current + [a[0]]);
      }
    }
  }

  /** Round trip: the segments of `/` followed by plain segments joined are those segments. */
  lemma {:induction false} SegmentsOfRootedJoin(os: Os, segs: seq<string>)
    requires os != Windows
    requires AllPlain(os, segs)
    ensures Segments(os, "/" + Join(os, segs)) == segs
    decreases |segs|
  {
    JoinShape(os, segs);
    if segs == [] {
      assert "/" + Join(os, segs) == "/";
      assert SplitFrom(os, "/", "") == SplitFrom(os, "", "");
    } else {
      var init, last := segs[..|segs| - 1], segs[|segs| - 1];
      var tail := "/" + last;
      assert SplitFrom(os, tail, "") == [last] by {
        assert tail[1..] == last;
        SplitFromPlain(os, last, "");
        assert "" + last == last;
      }
      if init == [] {
        assert "/" + Join(os, segs) == tail;
      } else {
        assert "/" + Join(os, segs) == ("/" + Join(os, init)) + tail;
        SplitFromConcat(os, "/" + Join(os, init), tail, "");
        SegmentsOfRootedJoin(os, init);
        assert segs == init + [last];
      }
    }
  }

  /** A full path is its own full path. */
  lemma GetFullPathIdempotent(os: Os, p: string)
    ensures GetFullPath(os, GetFullPath(os, p)) == GetFullPath(os, p)
  {
    if os != Windows && IsPathRooted(os, p) {
      var segs := ResolveDots(Segments(os, p));
      SegmentsPlain(os, p, "");
      SegmentsOfRootedJoin(os, segs);
      ResolveDotsNormal(segs);
    }
  }
}
