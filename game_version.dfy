/**
 * `WrappedGameVersion`: a `System.Version` read from a string whose trailing letter stands for the
 * revision ('a' = 1, 'b' = 2, ...), and written back the same way.
 */
module GameVersion {
  import opened Wrappers
  import opened Text
  import opened BinaryIO

  /** `System.Version`: absent build and revision components are -1. */
  datatype Version = Version(major: int, minor: int, build: int, revision: int) {
    /** The shapes a `Version` can take: 2 to 4 non-negative 32-bit components, present from the left. */
    predicate Valid() {
      0 <= major <= MaxInt32 && 0 <= minor <= MaxInt32 &&
      -1 <= build <= MaxInt32 && -1 <= revision <= MaxInt32 &&
      (build == -1 ==> revision == -1)
    }

    /** The number of components `ToString()` prints. */
    function FieldCount(): (n: nat)
      ensures 2 <= n <= 4
      ensures n == 2 <==> build == -1
      ensures n == 4 <==> build != -1 && revision != -1
    {
      if build == -1 then 2 else if revision == -1 then 3 else 4
    }
  }

  type ValidVersion = v: Version | v.Valid() witness Version(0, 0, -1, -1)

  /** `Version.ToString()`: the defined components joined by dots. */
  function VersionToString(v: ValidVersion): (r: string)
    ensures |r| > 0 && IsDigit(r[|r| - 1])
  {
    var head := NatToString(v.major) + "." + NatToString(v.minor);
    if v.FieldCount() == 2 then head
    else if v.FieldCount() == 3 then head + "." + NatToString(v.build)
    else head + "." + NatToString(v.build) + "." + NatToString(v.revision)
  }

  // ---------------------------------------------------------------------------------------------
  // Splitting on a separator (`string.Split(char)`, empty pieces kept)

  function SplitOn(s: string, c: char): (r: seq<string>)
    ensures |r| >= 1
    ensures forall i :: 0 <= i < |r| ==> c !in r[i]
  {
    if s == [] then [""]
    else
      var init := SplitOn(s[..|s| - 1], c);
      if s[|s| - 1] == c then init + [""]
      else init[..|init| - 1] + [init[|init| - 1] + [s[|s| - 1]]]
  }

  /** The pieces joined with the separator between them. */
  function JoinWith(pieces: seq<string>, c: char): string
    requires |pieces| >= 1
  {
    if |pieces| == 1 then pieces[0] else JoinWith(pieces[..|pieces| - 1], c) + [c] + pieces[|pieces| - 1]
  }

  lemma JoinWithSmall(a: string, b: string, d: string, e: string, c: char)
    ensures JoinWith([a, b], c) == a + [c] + b
    ensures JoinWith([a, b, d], c) == a + [c] + b + [c] + d
    ensures JoinWith([a, b, d, e], c) == a + [c] + b + [c] + d + [c] + e
  {
    assert [a, b][..1] == [a];
    assert [a, b, d][..2] == [a, b];
    assert [a, b, d, e][..3] == [a, b, d];
  }

  lemma {:induction false} SplitOnAppend(s: string, c: char, t: string)
    requires c !in t
    ensures SplitOn(s + t, c) == SplitOn(s, c)[..|SplitOn(s, c)| - 1] + [SplitOn(s, c)[|SplitOn(s, c)| - 1] + t]
    decreases |t|
  {
    var r := SplitOn(s, c);
    var front, last := r[..|r| - 1], r[|r| - 1];
    if t == [] {
      assert s + t == s;
      assert last + t == last;
      assert front + [last] == r;
    } else {
      var t', x := t[..|t| - 1], t[|t| - 1];
      assert s + t == (s + t') + [x];
      SplitOnAppend(s, c, t');
      SplitOnSnoc(s + t', c, x);
      LastReplaced(front, last + t', x);
      assert (last + t') + [x] == last + t;
    }
  }

  /** Appending a character other than the separator extends the last piece. */
  lemma SplitOnSnoc(s: string, c: char, x: char)
    requires x != c
    ensures SplitOn(s + [x], c) == SplitOn(s, c)[..|SplitOn(s, c)| - 1] + [SplitOn(s, c)[|SplitOn(s, c)| - 1] + [x]]
  {
    assert (s + [x])[..|s|] == s;
  }

  lemma LastReplaced(front: seq<string>, last: string, x: char)
    ensures (front + [last])[..|front|] == front && (front + [last])[|front|] == last
  {
  }

  /** Splitting undoes joining when no piece holds the separator. */
  lemma {:induction false} SplitOnJoin(pieces: seq<string>, c: char)
    requires |pieces| >= 1 && forall i :: 0 <= i < |pieces| ==> c !in pieces[i]
    ensures SplitOn(JoinWith(pieces, c), c) == pieces
    decreases |pieces|
  {
    var last := pieces[|pieces| - 1];
    if |pieces| == 1 {
      SplitOnAppend("", c, last);
      assert "" + last == last;
    } else {
      var init := pieces[..|pieces| - 1];
      var j := JoinWith(init, c);
      SplitOnJoin(init, c);
      assert (j + [c])[..|j + [c]| - 1] == j;
      assert SplitOn(j + [c], c) == init + [""];
      SplitOnAppend(j + [c], c, last);
      assert "" + last == last;
      assert (init + [""])[..|init|] == init;
      assert init + [last] == pieces;
    }
  }

  // ---------------------------------------------------------------------------------------------
  // Parsing (`new Version(string)`)

  /** The white space `int.Parse` skips around a number. */
  predicate IsNumberWhite(c: char) {
    c == ' ' || ('\t' <= c <= '\r')
  }

  function TrimNumberWhite(s: string): (r: string)
    ensures |r| <= |s|
    ensures |r| > 0 ==> !IsNumberWhite(r[0]) && !IsNumberWhite(r[|r| - 1])
    ensures (forall i :: 0 <= i < |s| ==> !IsNumberWhite(s[i])) ==> r == s
    decreases |s|
  {
    if s == [] then []
    else if IsNumberWhite(s[0]) then TrimNumberWhite(s[1..])
    else if IsNumberWhite(s[|s| - 1]) then TrimNumberWhite(s[..|s| - 1])
    else s
  }

  predicate AllDigits(s: string) {
    forall i :: 0 <= i < |s| ==> IsDigit(s[i])
  }

  /**
   * One component, read as `int.Parse` with integer style (surrounding white space and a sign
   * allowed): a format error without digits, an overflow outside the 32-bit range, and an
   * argument-out-of-range error for a negative value.
   */
  function ParseComponent(s: string): (r: Result<int, Exception>)
    ensures r.Ok? ==> 0 <= r.value <= MaxInt32
    ensures IsCanonicalNumeral(s) && DigitsValue(s) <= MaxInt32 ==> r == Ok(DigitsValue(s))
  {
    var t := TrimNumberWhite(s);
    var negative := |t| > 0 && t[0] == '-';
    var digits := if |t| > 0 && (t[0] == '-' || t[0] == '+') then t[1..] else t;
    if digits == [] || !AllDigits(digits) then Err(FormatError)
    else
      var n := DigitsValue(digits);
      if negative then
        (if n > MaxInt32 + 1 then Err(Overflow) else if n == 0 then Ok(0) else Err(ArgumentOutOfRange))
      else if n > MaxInt32 then Err(Overflow)
      else Ok(n)
  }

  /** The components read left to right; the first failure is the result. */
  function ParseComponents(parts: seq<string>): (r: Result<seq<int>, Exception>)
    ensures r.Ok? ==> |r.value| == |parts| && forall i :: 0 <= i < |parts| ==> 0 <= r.value[i] <= MaxInt32
    ensures r.Ok? ==> forall i :: 0 <= i < |parts| ==> ParseComponent(parts[i]) == Ok(r.value[i])
  {
    if parts == [] then Ok([])
    else match ParseComponent(parts[0])
      case Err(e) => Err(e)
      case Ok(n) =>
        match ParseComponents(parts[1..])
        case Err(e) => Err(e)
        case Ok(ns) => Ok([n] + ns)
  }

  /** `new Version(string)`: two to four dot-separated components, else an argument error. */
  function ParseVersion(s: string): (r: Result<ValidVersion, Exception>)
    ensures r.Ok? ==> 2 <= |SplitOn(s, '.')| <= 4 && r.value.FieldCount() == |SplitOn(s, '.')|
    ensures |SplitOn(s, '.')| < 2 || |SplitOn(s, '.')| > 4 ==> r == Err(ArgumentError)
  {
    var parts := SplitOn(s, '.');
    if |parts| < 2 || |parts| > 4 then Err(ArgumentError)
    else match ParseComponents(parts)
      case Err(e) => Err(e)
      case Ok(ns) =>
        Ok(Version(ns[0], ns[1], if |ns| > 2 then ns[2] else -1, if |ns| > 3 then ns[3] else -1))
  }

  /** `WrappedGameVersion`: the parsed version it wraps. */
  datatype WrappedGameVersion = WrappedGameVersion(wrappedVersion: ValidVersion)

  /** The revision a trailing letter stands for: its lower-case position in the alphabet. */
  function LetterRevision(c: char): (n: nat)
    requires IsAsciiLetter(c)
    ensures 1 <= n <= 26
  {
    ToLowerChar(c) as int - 'a' as int + 1
  }

  /**
   * The constructor: blank input is an argument error; without a trailing letter the string is a
   * plain version; with one, the letter is replaced by a further component holding its revision.
   */
  function Parse(version: string): (r: Result<WrappedGameVersion, Exception>)
    ensures IsNullOrWhiteSpace(version) ==> r == Err(ArgumentError)
    ensures !IsNullOrWhiteSpace(version) && !IsAsciiLetter(version[|version| - 1]) ==>
              r == (match ParseVersion(version) case Ok(v) => Ok(WrappedGameVersion(v)) case Err(e) => Err(e))
  {
    if IsNullOrWhiteSpace(version) then Err(ArgumentError)
    else
      var lastChar := version[|version| - 1];
      var text := if !IsAsciiLetter(lastChar) then version
                  else version[..|version| - 1] + "." + NatToString(LetterRevision(lastChar));
      match ParseVersion(text)
      case Ok(v) => Ok(WrappedGameVersion(v))
      case Err(e) => Err(e)
  }

  /** Upper- and lower-case forms of the trailing letter give the same version. */
  lemma LetterCaseIrrelevant(numericPart: string, c: char)
    requires 'A' <= c <= 'Z'
    ensures Parse(numericPart + [c]) == Parse(numericPart + [ToLowerChar(c)])
  {
    var up := numericPart + [c];
    var low := numericPart + [ToLowerChar(c)];
    assert !IsWhiteSpace(up[|up| - 1]) && !IsWhiteSpace(low[|low| - 1]);
    assert up[..|up| - 1] == numericPart == low[..|low| - 1];
  }

  // ---------------------------------------------------------------------------------------------
  // Formatting (`ToString`)

  /** `(char)(Revision + 'a' - 1)`: the UTF-16 code unit, with U+FFFD standing for a lone surrogate. */
  function RevisionLetter(revision: int): (c: char)
    requires revision > 0
    ensures revision <= 26 ==> 'a' <= c <= 'z' && LetterRevision(c) == revision
  {
    var unit := (revision + 'a' as int - 1) % 0x1_0000;
    if 0xD800 <= unit < 0xE000 then '\U{FFFD}' else unit as char
  }

  /** `ToString`: the plain version without a positive revision, else three components and the letter. */
  function Format(w: WrappedGameVersion): (r: string)
    ensures w.wrappedVersion.revision <= 0 ==> r == VersionToString(w.wrappedVersion)
    ensures 0 < w.wrappedVersion.revision <= 26 ==>
              |r| > 0 && 'a' <= r[|r| - 1] <= 'z' && LetterRevision(r[|r| - 1]) == w.wrappedVersion.revision
  {
    var v := w.wrappedVersion;
    if v.revision <= 0 then VersionToString(v)
    else NatToString(v.major) + "." + NatToString(v.minor) + "." + NatToString(v.build) + [RevisionLetter(v.revision)]
  }

  // ---------------------------------------------------------------------------------------------
  // Round trips

  /** The dotted numerals of the given components. */
  function Numerals(ns: seq<nat>): (r: seq<string>)
    ensures |r| == |ns|
    ensures forall i :: 0 <= i < |ns| ==> r[i] == NatToString(ns[i])
  {
    if ns == [] then [] else [NatToString(ns[0])] + Numerals(ns[1..])
  }

  lemma {:induction false} ParseNumerals(ns: seq<nat>)
    requires forall i :: 0 <= i < |ns| ==> ns[i] <= MaxInt32
    ensures ParseComponents(Numerals(ns)) == Ok(ns)
    decreases |ns|
  {
    if ns != [] {
      var parts := Numerals(ns);
      ParseOfNumeral(ns[0]);
      assert parts[0] == NatToString(ns[0]);
      assert parts[1..] == Numerals(ns[1..]);
      ParseNumerals(ns[1..]);
      assert [ns[0]] + ns[1..] == ns;
    }
  }

  /** One 32-bit numeral parses back to its value. */
  lemma ParseOfNumeral(n: nat)
    requires n <= MaxInt32
    ensures ParseComponent(NatToString(n)) == Ok(n)
  {
    DigitsValueOfNatToString(n);
    var s := NatToString(n);
    if n == 0 {
      assert s == "0";
    }
    assert IsCanonicalNumeral(s);
  }

  lemma DotFreeNumeral(n: nat)
    ensures '.' !in NatToString(n)
  {
  }

  /** Parsing the dotted numerals of 2 to 4 components gives the version with those components. */
  lemma ParseOfNumerals(ns: seq<nat>)
    requires 2 <= |ns| <= 4 && forall i :: 0 <= i < |ns| ==> ns[i] <= MaxInt32
    ensures ParseVersion(JoinWith(Numerals(ns), '.')) ==
              Ok(Version(ns[0], ns[1], if |ns| > 2 then ns[2] else -1, if |ns| > 3 then ns[3] else -1))
  {
    var parts := Numerals(ns);
    forall i | 0 <= i < |parts| ensures '.' !in parts[i] {
      DotFreeNumeral(ns[i]);
    }
    SplitOnJoin(parts, '.');
    ParseNumerals(ns);
  }

  /** The components of a version, as many as `ToString()` prints. */
  function Components(v: ValidVersion): (ns: seq<nat>)
    ensures |ns| == v.FieldCount()
  {
    if v.FieldCount() == 2 then [v.major, v.minor]
    else if v.FieldCount() == 3 then [v.major, v.minor, v.build]
    else [v.major, v.minor, v.build, v.revision]
  }

  lemma VersionToStringIsJoin(v: ValidVersion)
    ensures VersionToString(v) == JoinWith(Numerals(Components(v)), '.')
  {
    var ps := Numerals(Components(v));
    var a, b := NatToString(v.major), NatToString(v.minor);
    if v.FieldCount() == 2 {
      assert ps == [a, b];
      JoinWithSmall(a, b, "", "", '.');
    } else if v.FieldCount() == 3 {
      assert ps == [a, b, NatToString(v.build)];
      JoinWithSmall(a, b, NatToString(v.build), "", '.');
    } else {
      assert ps == [a, b, NatToString(v.build), NatToString(v.revision)];
      JoinWithSmall(a, b, NatToString(v.build), NatToString(v.revision), '.');
    }
  }

  /**
   * Writing a version and reading it back gives the same version, provided a positive revision
   * is a letter ('a' to 'z').
   */
  lemma {:induction false} ParseOfFormat(w: WrappedGameVersion)
    requires w.wrappedVersion.revision <= 26
    ensures Parse(Format(w)) == Ok(w)
  {
    var v := w.wrappedVersion;
    if v.revision <= 0 {
      ParseOfVersionString(v);
    } else {
      var c := RevisionLetter(v.revision);
      var numeric := NatToString(v.major) + "." + NatToString(v.minor) + "." + NatToString(v.build);
      var ns: seq<nat> := [v.major, v.minor, v.build, v.revision];
      assert ParseVersion(numeric + "." + NatToString(LetterRevision(c))) == Ok(v) by {
        assert Numerals(ns) == [NatToString(v.major), NatToString(v.minor), NatToString(v.build), NatToString(v.revision)];
        JoinWithSmall(NatToString(v.major), NatToString(v.minor), NatToString(v.build), NatToString(v.revision), '.');
        ParseOfNumerals(ns);
      }
      ParseOfLetterEnded(numeric, c, v);
    }
  }

  /** A string ending in a letter is read as the version with the letter's revision as a further component. */
  lemma ParseOfLetterEnded(numeric: string, c: char, v: ValidVersion)
    requires IsAsciiLetter(c) && ParseVersion(numeric + "." + NatToString(LetterRevision(c))) == Ok(v)
    ensures Parse(numeric + [c]) == Ok(WrappedGameVersion(v))
  {
    var s := numeric + [c];
    assert !IsWhiteSpace(s[|s| - 1]);
    assert s[..|s| - 1] == numeric;
  }

  /** A canonical "major.minor.build" followed by a lower-case letter is read and written back unchanged. */
  lemma LetterSuffixedRoundTrip(major: nat, minor: nat, build: nat, c: char)
    requires major <= MaxInt32 && minor <= MaxInt32 && build <= MaxInt32 && 'a' <= c <= 'z'
    ensures var s := NatToString(major) + "." + NatToString(minor) + "." + NatToString(build) + [c];
            Parse(s) == Ok(WrappedGameVersion(Version(major, minor, build, LetterRevision(c)))) &&
            Format(Parse(s).value) == s
  {
    var w := WrappedGameVersion(Version(major, minor, build, LetterRevision(c)));
    assert RevisionLetter(LetterRevision(c)) == c;
    ParseOfFormat(w);
  }

  /** `Version.ToString()` output is read back as the same version. */
  lemma {:induction false} ParseOfVersionString(v: ValidVersion)
    ensures Parse(VersionToString(v)) == Ok(WrappedGameVersion(v))
  {
    var s := VersionToString(v);
    assert ParseVersion(s) == Ok(v) by {
      VersionToStringIsJoin(v);
      ParseOfNumerals(Components(v));
    }
    ParseOfDigitEnded(s, v);
  }

  /** A string ending in a digit is read as the plain version it parses to. */
  lemma ParseOfDigitEnded(s: string, v: ValidVersion)
    requires |s| > 0 && IsDigit(s[|s| - 1]) && ParseVersion(s) == Ok(v)
    ensures Parse(s) == Ok(WrappedGameVersion(v))
  {
    assert !IsWhiteSpace(s[|s| - 1]);
  }

  /**
   * A plain version string without a positive fourth component is written back unchanged; the
   * dotted canonical numerals of its components are exactly such strings.
   */
  lemma PlainRoundTrip(v: ValidVersion)
    requires v.revision <= 0
    ensures VersionToString(v) == JoinWith(Numerals(Components(v)), '.')
    ensures Parse(VersionToString(v)).Ok?
    ensures Format(Parse(VersionToString(v)).value) == VersionToString(v)
  {
    VersionToStringIsJoin(v);
    ParseOfVersionString(v);
  }

  /** A plain four-component string with a positive fourth component comes back with a letter instead. */
  lemma FourthComponentBecomesLetter(v: ValidVersion)
    requires v.revision > 0
    ensures Parse(VersionToString(v)).Ok?
    ensures Format(Parse(VersionToString(v)).value) != VersionToString(v)
  {
    ParseOfVersionString(v);
    var prefix := NatToString(v.major) + "." + NatToString(v.minor) + "." + NatToString(v.build);
    assert Format(WrappedGameVersion(v)) == prefix + [RevisionLetter(v.revision)];
    assert VersionToString(v) == prefix + "." + NatToString(v.revision);
  }

  // ---------------------------------------------------------------------------------------------
  // Equality and hashing

  /** What `Equals(object?)` may be handed. */
  datatype Comparand = AVersion(version: Version) | AWrapped(wrapped: WrappedGameVersion) | AnotherObject

  /** `Equals`: equal wrapped versions, whether handed a `Version` or another wrapper; nothing else. */
  predicate Equals(self: WrappedGameVersion, obj: Comparand)
  {
    match obj
    case AVersion(v) => v == self.wrappedVersion
    case AWrapped(w) => w.wrappedVersion == self.wrappedVersion
    case AnotherObject => false
  }

  function Low32(x: int): bv32 {
    (x % TwoTo32) as bv32
  }

  /** `Version.GetHashCode()`: the low bits of the four components packed into one 32-bit word. */
  function VersionHash(v: ValidVersion): (h: bv32)
    ensures h >> 28 == Low32(v.major) & 0xF
    ensures h & 0xFFF == Low32(v.revision) & 0xFFF
  {
    ((Low32(v.major) & 0xF) << 28) | ((Low32(v.minor) & 0xFF) << 20) |
    ((Low32(v.build) & 0xFF) << 12) | (Low32(v.revision) & 0xFFF)
  }

  /** `GetHashCode`: the wrapped version's hash. */
  function GetHashCode(self: WrappedGameVersion): bv32 {
    VersionHash(self.wrappedVersion)
  }

  /** Wrappers that are equal, either way round, hash alike. */
  lemma {:induction false} EqualsSymmetricAndHashes(a: WrappedGameVersion, b: WrappedGameVersion)
    ensures Equals(a, AWrapped(b)) <==> Equals(b, AWrapped(a))
    ensures Equals(a, AWrapped(b)) <==> Equals(a, AVersion(b.wrappedVersion))
    ensures Equals(a, AWrapped(b)) ==> GetHashCode(a) == GetHashCode(b)
  {
  }
}
