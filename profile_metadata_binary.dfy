/**
 * `ProfileMetadataBinaryUtils`: the binary directory manifest of a profile. The writer emits four
 * tagged sections (configs, patchers, mod paths, mod names), each the tag, an int32 count and that
 * many strings, then the end marker; the reader collects the sections into a map by tag.
 */
module ProfileMetadataBinary {
  import opened Wrappers
  import opened BinaryIO
  import opened ProfileModel

  const ConfigsPrefix: string := "##Configs"
  const PatchersPrefix: string := "##Patchers"
  const ModsPrefix: string := "##Mods"
  const ModsNamePrefix: string := ModsPrefix + "_Names"
  const BinaryEndMarker: string := "::END"
  /** The tag of the mod-names section: the mods tag followed by the names prefix. */
  const ModsNamesTag: string := ModsPrefix + ModsNamePrefix
  /** Declared counts above this make the reader give up with `null`. */
  const MaxSectionLength: int := 500000

  /** Which section the writer is in; `StatusText` is the status string it reports. */
  datatype Stage = ConfigsStatus | PatchersStatus | ModsStatus

  function StatusText(stage: Stage): string {
    match stage
    case ConfigsStatus => "Saving configs to metadata..."
    case PatchersStatus => "Saving patchers to metadata..."
    case ModsStatus => "Saving mods to metadata..."
  }

  /** One `(current, max, status)` progress report, the status named by its stage. */
  datatype ProgressReport = ProgressReport(current: int, max: int, status: Stage)

  // ---------------------------------------------------------------------------------------------
  // The byte layout

  /** The strings one after another. */
  function StringsBytes(values: seq<string>): seq<byte> {
    if values == [] then [] else EncodeString(values[0]) + StringsBytes(values[1..])
  }

  /** One section: the tag, the count, then the strings. */
  function SectionBytes(tag: string, values: seq<string>): seq<byte>
    requires |values| <= MaxInt32
  {
    EncodeString(tag) + EncodeInt32(|values|) + StringsBytes(values)
  }

  /** What `WriteDirectoryStructure` appends for a profile. */
  function ManifestBytes(profile: ProfileItem): seq<byte>
    requires |profile.configs| <= MaxInt32 && |profile.patchers| <= MaxInt32 && |profile.mods| <= MaxInt32
  {
    SectionBytes(ConfigsPrefix, ItemPaths(profile.configs)) +
    SectionBytes(PatchersPrefix, ItemPaths(profile.patchers)) +
    SectionBytes(ModsPrefix, ModPaths(profile.mods)) +
    SectionBytes(ModsNamesTag, ModNames(profile.mods)) +
    EncodeString(BinaryEndMarker)
  }

  /** The reports a section's loop makes, counting on from `start`. */
  function SectionReports(start: int, count: nat, max: int, status: Stage): (r: seq<ProgressReport>)
    ensures |r| == count
  {
    if count == 0 then [] else SectionReports(start, count - 1, max, status) + [ProgressReport(start + count, max, status)]
  }

  /** The `i`th report of a section carries the count `start + i + 1`. */
  lemma {:induction false} SectionReportAt(start: int, count: nat, max: int, status: Stage, i: nat)
    requires i < count
    ensures SectionReports(start, count, max, status)[i] == ProgressReport(start + i + 1, max, status)
    decreases count
  {
    if i < count - 1 {
      SectionReportAt(start, count - 1, max, status, i);
    }
  }

  // ---------------------------------------------------------------------------------------------
  // The writer

  /**
   * One section loop (`ConvertCollectionToBinary` and the two halves of
   * `ConvertModCollectionToBinary`): the tag, the count, then each value, counting one per value.
   */
  method WriteSection(writer: BinaryWriter, tag: string, values: seq<string>, counter: int, max: int, status: Stage)
    returns (newCounter: int, reports: seq<ProgressReport>)
    requires |values| <= MaxInt32
    modifies writer
    ensures writer.written == old(writer.written) + SectionBytes(tag, values)
    ensures newCounter == counter + |values|
    ensures reports == SectionReports(counter, |values|, max, status)
  {
    writer.Write(tag);
    writer.WriteInt32(|values|);
    ghost var header := writer.written;
    Associative(old(writer.written), EncodeString(tag), EncodeInt32(|values|));
    newCounter := counter;
    reports := [];
    var i := 0;
    while i < |values|
      invariant 0 <= i <= |values|
      invariant writer.written == header + StringsBytes(values[..i])
      invariant newCounter == counter + i
      invariant reports == SectionReports(counter, i, max, status)
    {
      newCounter := newCounter + 1;
      WriteValue(writer, header, values, i);
      reports := reports + [ProgressReport(newCounter, max, status)];
      i := i + 1;
    }
    assert values[..i] == values;
    Associative(old(writer.written), EncodeString(tag) + EncodeInt32(|values|), StringsBytes(values));
  }

  /** Writing the next value of a section extends the written values by one. */
  method WriteValue(writer: BinaryWriter, ghost header: seq<byte>, values: seq<string>, i: nat)
    requires i < |values| && writer.written == header + StringsBytes(values[..i])
    modifies writer
    ensures writer.written == header + StringsBytes(values[..i + 1])
  {
    writer.Write(values[i]);
    assert values[..i + 1] == values[..i] + [values[i]];
    StringsBytesAppend(values[..i], values[i]);
    Associative(header, StringsBytes(values[..i]), EncodeString(values[i]));
  }

  lemma {:induction false} StringsBytesAppend(values: seq<string>, s: string)
    ensures StringsBytes(values + [s]) == StringsBytes(values) + EncodeString(s)
  {
    if values == [] {
      assert [s][1..] == [];
    } else {
      assert (values + [s])[1..] == values[1..] + [s];
      StringsBytesAppend(values[1..], s);
      Associative(EncodeString(values[0]), StringsBytes(values[1..]), EncodeString(s));
    }
  }

  /**
   * `WriteDirectoryStructure`: the four sections and the end marker, with one report per written
   * value; the count runs to configs + patchers + 2 * mods while the reported maximum is
   * configs + patchers + mods.
   */
  method WriteDirectoryStructure(profile: ProfileItem, writer: BinaryWriter) returns (reports: seq<ProgressReport>)
    requires |profile.configs| <= MaxInt32 && |profile.patchers| <= MaxInt32 && |profile.mods| <= MaxInt32
    modifies writer
    ensures writer.written == old(writer.written) + ManifestBytes(profile)
    ensures reports == ManifestReports(profile)
  {
    var maxAmount := ReportedMax(profile);
    var currentAmount := 0;
    ghost var w0 := writer.written;
    var r1, r2, r3, r4;
    currentAmount, r1 := WriteSection(writer, ConfigsPrefix, ItemPaths(profile.configs), currentAmount, maxAmount, ConfigsStatus);
    ghost var w1, k2 := writer.written, currentAmount;
    currentAmount, r2 := WriteSection(writer, PatchersPrefix, ItemPaths(profile.patchers), currentAmount, maxAmount, PatchersStatus);
    ghost var w2, k3 := writer.written, currentAmount;
    currentAmount, r3 := WriteSection(writer, ModsPrefix, ModPaths(profile.mods), currentAmount, maxAmount, ModsStatus);
    ghost var w3, k4 := writer.written, currentAmount;
    currentAmount, r4 := WriteSection(writer, ModsNamesTag, ModNames(profile.mods), currentAmount, maxAmount, ModsStatus);
    ghost var w4 := writer.written;
    writer.Write(BinaryEndMarker);
    reports := r1 + r2 + r3 + r4;
    AssembleReports(profile, k2, k3, k4, maxAmount, r1, r2, r3, r4);
    ConcatFive(w0, w1, w2, w3, w4, writer.written,
      SectionBytes(ConfigsPrefix, ItemPaths(profile.configs)),
      SectionBytes(PatchersPrefix, ItemPaths(profile.patchers)),
      SectionBytes(ModsPrefix, ModPaths(profile.mods)),
      SectionBytes(ModsNamesTag, ModNames(profile.mods)),
      EncodeString(BinaryEndMarker));
  }

  lemma AssembleReports(profile: ProfileItem, k2: int, k3: int, k4: int, max: int,
                        r1: seq<ProgressReport>, r2: seq<ProgressReport>, r3: seq<ProgressReport>, r4: seq<ProgressReport>)
    requires max == ReportedMax(profile)
    requires k2 == |ItemPaths(profile.configs)| && k3 == k2 + |ItemPaths(profile.patchers)| && k4 == k3 + |ModPaths(profile.mods)|
    requires r1 == SectionReports(0, |ItemPaths(profile.configs)|, max, ConfigsStatus)
    requires r2 == SectionReports(k2, |ItemPaths(profile.patchers)|, max, PatchersStatus)
    requires r3 == SectionReports(k3, |ModPaths(profile.mods)|, max, ModsStatus)
    requires r4 == SectionReports(k4, |ModNames(profile.mods)|, max, ModsStatus)
    ensures r1 + r2 + r3 + r4 == ManifestReports(profile)
  {
    var c, p, m := |profile.configs|, |profile.patchers|, |profile.mods|;
    SectionReportsSplit(c + p, m, m, max, ModsStatus);
    assert r1 + r2 + r3 + r4 == r1 + r2 + (r3 + r4);
  }

  lemma ConcatFive(w0: seq<byte>, w1: seq<byte>, w2: seq<byte>, w3: seq<byte>, w4: seq<byte>, w5: seq<byte>,
                   a: seq<byte>, b: seq<byte>, c: seq<byte>, d: seq<byte>, e: seq<byte>)
    requires w1 == w0 + a && w2 == w1 + b && w3 == w2 + c && w4 == w3 + d && w5 == w4 + e
    ensures w5 == w0 + (a + b + c + d + e)
  {
  }

  lemma {:induction false} SectionReportsSplit(start: int, a: nat, b: nat, max: int, status: Stage)
    ensures SectionReports(start, a, max, status) + SectionReports(start + a, b, max, status) ==
            SectionReports(start, a + b, max, status)
    decreases b
  {
    if b > 0 {
      SectionReportsSplit(start, a, b - 1, max, status);
    }
  }

  /** The reports of the whole manifest: one per value written, the mods counted twice. */
  function ManifestReports(profile: ProfileItem): seq<ProgressReport> {
    SectionReports(0, |profile.configs|, ReportedMax(profile), ConfigsStatus) +
    SectionReports(|profile.configs|, |profile.patchers|, ReportedMax(profile), PatchersStatus) +
    SectionReports(|profile.configs| + |profile.patchers|, 2 * |profile.mods|, ReportedMax(profile), ModsStatus)
  }

  /** The maximum every report carries. */
  function ReportedMax(profile: ProfileItem): nat {
    |profile.configs| + |profile.patchers| + |profile.mods|
  }

  /** The reports count 1, 2, ... one per value, and with any mod the last count exceeds the maximum. */
  lemma ReportsCountUp(profile: ProfileItem)
    ensures var reports := ManifestReports(profile);
            |reports| == |profile.configs| + |profile.patchers| + 2 * |profile.mods| &&
            (forall i :: 0 <= i < |reports| ==> reports[i].current == i + 1 && reports[i].max == ReportedMax(profile)) &&
            (|profile.mods| > 0 ==> reports[|reports| - 1].current > ReportedMax(profile))
  {
    var c, p, m, max := |profile.configs|, |profile.patchers|, |profile.mods|, ReportedMax(profile);
    var a, b, d := SectionReports(0, c, max, ConfigsStatus), SectionReports(c, p, max, PatchersStatus),
                   SectionReports(c + p, 2 * m, max, ModsStatus);
    var reports := a + b + d;
    forall i | 0 <= i < |reports|
      ensures reports[i].current == i + 1 && reports[i].max == max
    {
      if i < c {
        SectionReportAt(0, c, max, ConfigsStatus, i);
      } else if i < c + p {
        SectionReportAt(c, p, max, PatchersStatus, i - c);
      } else {
        SectionReportAt(c + p, 2 * m, max, ModsStatus, i - c - p);
      }
    }
  }

  // ---------------------------------------------------------------------------------------------
  // The reader, as functions of the stream

  /** `count` strings read one after another from `pos`: the strings and the position after them. */
  function StringsAt(data: seq<byte>, pos: nat, count: nat): (r: Result<(seq<string>, nat), Exception>)
    ensures r.Ok? ==> |r.value.0| == count && pos <= r.value.1 && (count > 0 ==> r.value.1 <= |data|)
    decreases count
  {
    if count == 0 then Ok(([], pos))
    else match StringAt(data, pos)
      case Err(e) => Err(e)
      case Ok((s, next)) =>
        match StringsAt(data, next, count - 1)
        case Err(e) => Err(e)
        case Ok((rest, last)) => Ok(([s] + rest, last))
  }

  /**
   * The reader from a header position on: the end marker finishes with the map so far; a count
   * above the bound gives `None`; a negative count is an overflow; a repeated tag an argument error.
   */
  function SectionsAt(data: seq<byte>, pos: nat, acc: map<string, seq<string>>): Result<Option<map<string, seq<string>>>, Exception>
    decreases |data| - pos, 1
  {
    match StringAt(data, pos)
    case Err(e) => Err(e)
    case Ok((header, next)) => AfterHeader(data, header, next, acc)
  }

  /** The reader once `header` is read and the stream stands at `pos`. */
  function AfterHeader(data: seq<byte>, header: string, pos: nat, acc: map<string, seq<string>>): Result<Option<map<string, seq<string>>>, Exception>
    requires pos <= |data|
    decreases |data| - pos, 0
  {
    if header == BinaryEndMarker then Ok(Some(acc))
    else match Int32At(data, pos)
      case Err(e) => Err(e)
      case Ok((length, p)) =>
        if length > MaxSectionLength then Ok(None)
        else if length < 0 then Err(Overflow)
        else match StringsAt(data, p, length)
          case Err(e) => Err(e)
          case Ok((files, q)) =>
            if header in acc then Err(ArgumentError)
            else SectionsAt(data, q, acc[header := files])
  }

  /** What `ReadDirectoryStructure` returns for a stream standing at `pos`. */
  function ReadManifest(data: seq<byte>, pos: nat): Result<Option<map<string, seq<string>>>, Exception> {
    SectionsAt(data, pos, map[])
  }

  // ---------------------------------------------------------------------------------------------
  // The reader, as a loop over the stream

  /** `StringsAt` with the first strings already in hand. */
  function Prepended(xs: seq<string>, r: Result<(seq<string>, nat), Exception>): Result<(seq<string>, nat), Exception> {
    match r
    case Err(e) => Err(e)
    case Ok((ys, q)) => Ok((xs + ys, q))
  }

  lemma PrependedNothing(r: Result<(seq<string>, nat), Exception>)
    ensures Prepended([], r) == r
  {
    if r.Ok? {
      assert [] + r.value.0 == r.value.0;
    }
  }

  lemma PrependedTwice(xs: seq<string>, x: string, r: Result<(seq<string>, nat), Exception>)
    ensures Prepended(xs, Prepended([x], r)) == Prepended(xs + [x], r)
  {
    if r.Ok? {
      assert xs + ([x] + r.value.0) == (xs + [x]) + r.value.0;
    }
  }

  /**
   * `ReadDirectoryStructure`: reads headers until the end marker, each followed by a count and
   * that many strings gathered into a fresh array, adding each array to the map under its header.
   */
  method ReadDirectoryStructure(reader: BinaryReader) returns (r: Result<Option<map<string, seq<string>>>, Exception>)
    modifies reader
    ensures r == ReadManifest(reader.data, old(reader.position))
  {
    var cachedDictionary: map<string, seq<string>> := map[];
    var headerResult := reader.ReadString();
    if headerResult.Err? {
      return Err(headerResult.error);
    }
    var headerString := headerResult.value;
    while headerString != BinaryEndMarker
      invariant reader.position <= |reader.data|
      invariant ReadManifest(reader.data, old(reader.position)) ==
                AfterHeader(reader.data, headerString, reader.position, cachedDictionary)
      decreases |reader.data| - reader.position
    {
      ghost var p0 := reader.position;
      ghost var expected := AfterHeader(reader.data, headerString, p0, cachedDictionary);
      var lengthResult := reader.ReadInt32();
      if lengthResult.Err? {
        return Err(lengthResult.error);
      }
      var length := lengthResult.value;
      assert Int32At(reader.data, p0) == Ok((length, reader.position));
      if length > MaxSectionLength {
        return Ok(None);
      }
      if length < 0 {
        return Err(Overflow);
      }
      ghost var p1 := reader.position;
      var files := new string[length];
      var filesResult := ReadInto(reader, files);
      if filesResult.Err? {
        assert expected == Err(StringsAt(reader.data, p1, length).error);
        return Err(filesResult.error);
      }
      assert StringsAt(reader.data, p1, length) == Ok((files[..], reader.position));
      if headerString in cachedDictionary {
        return Err(ArgumentError);
      }
      cachedDictionary := cachedDictionary[headerString := files[..]];
      assert expected == SectionsAt(reader.data, reader.position, cachedDictionary);
      var next := reader.ReadString();
      if next.Err? {
        return Err(next.error);
      }
      headerString := next.value;
    }
    r := Ok(Some(cachedDictionary));
  }

  /** The `for` loop of the reader: fills `files` with strings read one after another. */
  method ReadInto(reader: BinaryReader, files: array<string>) returns (r: Result<(), Exception>)
    modifies reader, files
    ensures StringsAt(reader.data, old(reader.position), files.Length).Ok? <==> r.Ok?
    ensures r.Ok? ==> StringsAt(reader.data, old(reader.position), files.Length) == Ok((files[..], reader.position))
    ensures r.Err? ==> r.error == StringsAt(reader.data, old(reader.position), files.Length).error
  {
    var i := 0;
    PrependedNothing(StringsAt(reader.data, reader.position, files.Length));
    while i < files.Length
      invariant 0 <= i <= files.Length
      invariant old(reader.position) <= reader.position
      invariant StringsAt(reader.data, old(reader.position), files.Length) ==
                Prepended(files[..i], StringsAt(reader.data, reader.position, files.Length - i))
    {
      r := ReadNext(reader, files, old(reader.position), i);
      if r.Err? {
        return;
      }
      i := i + 1;
    }
    assert files[..i] + [] == files[..];
    r := Ok(());
  }

  /** One turn of the reader's loop: the next string goes into `files[i]`. */
  method ReadNext(reader: BinaryReader, files: array<string>, ghost start: nat, i: nat) returns (r: Result<(), Exception>)
    requires i < files.Length && start <= reader.position
    requires StringsAt(reader.data, start, files.Length) ==
             Prepended(files[..i], StringsAt(reader.data, reader.position, files.Length - i))
    modifies reader, files
    ensures r.Ok? ==> start <= reader.position
    ensures r.Ok? ==> StringsAt(reader.data, start, files.Length) ==
                      Prepended(files[..i + 1], StringsAt(reader.data, reader.position, files.Length - i - 1))
    ensures r.Err? ==> StringsAt(reader.data, start, files.Length) == Err(r.error)
  {
    ghost var done := files[..i];
    var s := reader.ReadString();
    if s.Err? {
      return Err(s.error);
    }
    files[i] := s.value;
    assert files[..i + 1] == done + [s.value];
    PrependedTwice(done, s.value, StringsAt(reader.data, reader.position, files.Length - i - 1));
    r := Ok(());
  }

  // ---------------------------------------------------------------------------------------------
  // Round trip: what the writer emits, the reader takes back

  /** The section map the reader builds from a profile's manifest. */
  function ManifestMap(profile: ProfileItem): map<string, seq<string>> {
    map[ConfigsPrefix := ItemPaths(profile.configs), PatchersPrefix := ItemPaths(profile.patchers),
        ModsPrefix := ModPaths(profile.mods), ModsNamesTag := ModNames(profile.mods)]
  }

  /** Every string of the profile can be read back, and no section exceeds the reader's bound. */
  predicate ManifestReadable(profile: ProfileItem) {
    |profile.configs| <= MaxSectionLength && |profile.patchers| <= MaxSectionLength &&
    |profile.mods| <= MaxSectionLength &&
    (forall s <- ItemPaths(profile.configs) :: Writable(s)) &&
    (forall s <- ItemPaths(profile.patchers) :: Writable(s)) &&
    (forall s <- ModPaths(profile.mods) :: Writable(s)) &&
    (forall s <- ModNames(profile.mods) :: Writable(s))
  }

  // The lemmas below name every stream position as a parameter tied to the layout by arithmetic:
  // the reader functions then meet the same terms in every fact, which keeps the proofs small.

  lemma StringThen(data: seq<byte>, pos: nat, s: string, next: nat, tail: seq<byte>)
    requires Writable(s) && next == pos + |EncodeString(s)|
    requires pos <= |data| && data[pos..] == EncodeString(s) + tail
    ensures StringAt(data, pos) == Ok((s, next))
    ensures data[next..] == tail
  {
    var n := |EncodeString(s)|;
    assert data[pos..pos + n] == data[pos..][..n];
    StringOfEncoded(data, pos, s);
    assert data[pos + n..] == data[pos..][n..];
  }

  lemma Int32Then(data: seq<byte>, pos: nat, n: int, next: nat, tail: seq<byte>)
    requires MinInt32 <= n <= MaxInt32 && next == pos + 4
    requires pos <= |data| && data[pos..] == EncodeInt32(n) + tail
    ensures Int32At(data, pos) == Ok((n, next))
    ensures data[next..] == tail
  {
    assert data[pos..pos + 4] == data[pos..][..4];
    Int32OfEncoded(data, pos, n);
    assert data[pos + 4..] == data[pos..][4..];
  }

  /** The layout of a non-empty run of strings: the first one, then the others. */
  lemma StringsBytesFirst(values: seq<string>, tail: seq<byte>)
    requires values != []
    ensures StringsBytes(values) + tail == EncodeString(values[0]) + (StringsBytes(values[1..]) + tail)
    ensures |StringsBytes(values)| == |EncodeString(values[0])| + |StringsBytes(values[1..])|
  {
    Associative(EncodeString(values[0]), StringsBytes(values[1..]), tail);
  }


  /** One more string in front of `count - 1` strings. */
  lemma StringsAtStep(data: seq<byte>, pos: nat, count: nat, v: string, next: nat, vs: seq<string>,
                      values: seq<string>, last: nat)
    requires count > 0 && values == [v] + vs
    requires StringAt(data, pos) == Ok((v, next))
    requires StringsAt(data, next, count - 1) == Ok((vs, last))
    ensures StringsAt(data, pos, count) == Ok((values, last))
  {
  }

  /** Written strings are read back one after another, and the reader ends just past them. */
  lemma {:induction false} StringsThen(data: seq<byte>, pos: nat, values: seq<string>, count: nat, last: nat, tail: seq<byte>)
    requires count == |values| && forall s <- values :: Writable(s)
    requires last == pos + |StringsBytes(values)|
    requires pos <= |data| && data[pos..] == StringsBytes(values) + tail
    ensures StringsAt(data, pos, count) == Ok((values, last))
    ensures data[last..] == tail
    decreases count
  {
    if count == 0 {
      assert values == [];
    } else {
      var v, vs := values[0], values[1..];
      var rest := StringsBytes(vs);
      var next := pos + |EncodeString(v)|;
      StringsBytesFirst(values, tail);
      StringThen(data, pos, v, next, rest + tail);
      StringsThen(data, next, vs, count - 1, last, tail);
      StringsAtStep(data, pos, count, v, next, vs, values, last);
    }
  }

  /** The layout of a section: tag, count, strings. */
  lemma SectionBytesParts(tag: string, values: seq<string>, tail: seq<byte>)
    requires |values| <= MaxInt32
    ensures SectionBytes(tag, values) + tail == EncodeString(tag) + (EncodeInt32(|values|) + (StringsBytes(values) + tail))
    ensures |SectionBytes(tag, values)| == |EncodeString(tag)| + 4 + |StringsBytes(values)|
  {
    var t, c, b := EncodeString(tag), EncodeInt32(|values|), StringsBytes(values);
    Associative(t + c, b, tail);
    Associative(t, c, b + tail);
  }

  /** One section read by the reader functions, given what each read returns. */
  lemma SectionsAtStep(data: seq<byte>, pos: nat, acc: map<string, seq<string>>, tag: string, p1: nat,
                       count: int, p2: nat, values: seq<string>, p3: nat)
    requires tag != BinaryEndMarker && tag !in acc && 0 <= count <= MaxSectionLength
    requires StringAt(data, pos) == Ok((tag, p1))
    requires Int32At(data, p1) == Ok((count, p2))
    requires StringsAt(data, p2, count) == Ok((values, p3))
    ensures SectionsAt(data, pos, acc) == SectionsAt(data, p3, acc[tag := values])
  {
  }

  /** A written section is read into the map under its tag, and the reader moves past it. */
  lemma SectionThen(data: seq<byte>, pos: nat, tag: string, values: seq<string>, acc: map<string, seq<string>>,
                    after: nat, tail: seq<byte>)
    requires Writable(tag) && tag != BinaryEndMarker && tag !in acc
    requires |values| <= MaxSectionLength && forall s <- values :: Writable(s)
    requires after == pos + |SectionBytes(tag, values)|
    requires pos <= |data| && data[pos..] == SectionBytes(tag, values) + tail
    ensures SectionsAt(data, pos, acc) == SectionsAt(data, after, acc[tag := values])
    ensures data[after..] == tail
  {
    var c, b := EncodeInt32(|values|), StringsBytes(values);
    var p1 := pos + |EncodeString(tag)|;
    var p2 := p1 + 4;
    SectionBytesParts(tag, values, tail);
    StringThen(data, pos, tag, p1, c + (b + tail));
    Int32Then(data, p1, |values|, p2, b + tail);
    StringsThen(data, p2, values, |values|, after, tail);
    SectionsAtStep(data, pos, acc, tag, p1, |values|, p2, values, after);
  }

  /** Two sections with distinct tags, read one after the other. */
  lemma TwoSectionsThen(data: seq<byte>, pos: nat, tagA: string, va: seq<string>, tagB: string, vb: seq<string>,
                        acc: map<string, seq<string>>, mid: nat, after: nat, tail: seq<byte>)
    requires Writable(tagA) && tagA != BinaryEndMarker && tagA !in acc
    requires Writable(tagB) && tagB != BinaryEndMarker && tagB !in acc && tagA != tagB
    requires |va| <= MaxSectionLength && (forall s <- va :: Writable(s))
    requires |vb| <= MaxSectionLength && (forall s <- vb :: Writable(s))
    requires mid == pos + |SectionBytes(tagA, va)| && after == mid + |SectionBytes(tagB, vb)|
    requires pos <= |data| && data[pos..] == SectionBytes(tagA, va) + (SectionBytes(tagB, vb) + tail)
    ensures SectionsAt(data, pos, acc) == SectionsAt(data, after, acc[tagA := va][tagB := vb])
    ensures data[after..] == tail
  {
    SectionThen(data, pos, tagA, va, acc, mid, SectionBytes(tagB, vb) + tail);
    SectionThen(data, mid, tagB, vb, acc[tagA := va], after, tail);
  }

  /** The end marker ends the reading with the map gathered so far. */
  lemma EndThen(data: seq<byte>, pos: nat, acc: map<string, seq<string>>, tail: seq<byte>)
    requires pos <= |data| && data[pos..] == EncodeString(BinaryEndMarker) + tail
    ensures SectionsAt(data, pos, acc) == Ok(Some(acc))
  {
    TagsReadable();
    var next := pos + |EncodeString(BinaryEndMarker)|;
    StringThen(data, pos, BinaryEndMarker, next, tail);
  }

  /** The five tags are distinct and can be read back. */
  lemma TagsReadable()
    ensures Writable(ConfigsPrefix) && Writable(PatchersPrefix) && Writable(ModsPrefix) && Writable(ModsNamesTag)
    ensures Writable(BinaryEndMarker)
    ensures |ConfigsPrefix| == 9 && |PatchersPrefix| == 10 && |ModsPrefix| == 6 && |ModsNamesTag| == 18
    ensures |BinaryEndMarker| == 5
  {
  }

  /** The manifest split into its five parts, each followed by everything after it. */
  lemma ManifestParts(s1: seq<byte>, s2: seq<byte>, s3: seq<byte>, s4: seq<byte>, e: seq<byte>, rest: seq<byte>)
    ensures (s1 + s2 + s3 + s4 + e + rest)[0..] == s1 + (s2 + (s3 + (s4 + (e + rest))))
  {
  }

  /** The map the four section reads build is the section map. */
  lemma ManifestMapBuilt(profile: ProfileItem)
    ensures map[][ConfigsPrefix := ItemPaths(profile.configs)][PatchersPrefix := ItemPaths(profile.patchers)]
              [ModsPrefix := ModPaths(profile.mods)][ModsNamesTag := ModNames(profile.mods)] == ManifestMap(profile)
  {
  }

  /**
   * Reading a written manifest, whatever follows it, gives back the four sections under their tags:
   * the writer and the reader agree on the layout.
   */
  lemma ManifestRoundTrip(profile: ProfileItem, rest: seq<byte>)
    requires ManifestReadable(profile)
    ensures ReadManifest(ManifestBytes(profile) + rest, 0) == Ok(Some(ManifestMap(profile)))
  {
    TagsReadable();
    FourSectionsRead(ConfigsPrefix, ItemPaths(profile.configs), PatchersPrefix, ItemPaths(profile.patchers),
                     ModsPrefix, ModPaths(profile.mods), ModsNamesTag, ModNames(profile.mods),
                     EncodeString(BinaryEndMarker), rest);
    ManifestMapBuilt(profile);
  }

  /** Four sections with distinct tags, then the end marker, read back as the map of the four. */
  lemma FourSectionsRead(t1: string, v1: seq<string>, t2: string, v2: seq<string>,
                         t3: string, v3: seq<string>, t4: string, v4: seq<string>, e: seq<byte>, rest: seq<byte>)
    requires Writable(t1) && Writable(t2) && Writable(t3) && Writable(t4)
    requires t1 != BinaryEndMarker && t2 != BinaryEndMarker && t3 != BinaryEndMarker && t4 != BinaryEndMarker
    requires t1 != t2 && t1 != t3 && t1 != t4 && t2 != t3 && t2 != t4 && t3 != t4
    requires |v1| <= MaxSectionLength && (forall s <- v1 :: Writable(s))
    requires |v2| <= MaxSectionLength && (forall s <- v2 :: Writable(s))
    requires |v3| <= MaxSectionLength && (forall s <- v3 :: Writable(s))
    requires |v4| <= MaxSectionLength && (forall s <- v4 :: Writable(s))
    requires e == EncodeString(BinaryEndMarker)
    ensures SectionsAt(SectionBytes(t1, v1) + SectionBytes(t2, v2) + SectionBytes(t3, v3) + SectionBytes(t4, v4) + e + rest, 0, map[])
            == Ok(Some(map[][t1 := v1][t2 := v2][t3 := v3][t4 := v4]))
  {
    var s1, s2, s3, s4 := SectionBytes(t1, v1), SectionBytes(t2, v2), SectionBytes(t3, v3), SectionBytes(t4, v4);
    var data := s1 + s2 + s3 + s4 + e + rest;
    ManifestParts(s1, s2, s3, s4, e, rest);
    FourSectionsFrom(data, t1, v1, t2, v2, t3, v3, t4, v4, e, rest);
  }

  /** `FourSectionsRead` for a stream known only through its layout. */
  lemma FourSectionsFrom(data: seq<byte>, t1: string, v1: seq<string>, t2: string, v2: seq<string>,
                         t3: string, v3: seq<string>, t4: string, v4: seq<string>, e: seq<byte>, rest: seq<byte>)
    requires Writable(t1) && Writable(t2) && Writable(t3) && Writable(t4)
    requires t1 != BinaryEndMarker && t2 != BinaryEndMarker && t3 != BinaryEndMarker && t4 != BinaryEndMarker
    requires t1 != t2 && t1 != t3 && t1 != t4 && t2 != t3 && t2 != t4 && t3 != t4
    requires |v1| <= MaxSectionLength && (forall s <- v1 :: Writable(s))
    requires |v2| <= MaxSectionLength && (forall s <- v2 :: Writable(s))
    requires |v3| <= MaxSectionLength && (forall s <- v3 :: Writable(s))
    requires |v4| <= MaxSectionLength && (forall s <- v4 :: Writable(s))
    requires e == EncodeString(BinaryEndMarker)
    requires data[0..] == SectionBytes(t1, v1) + (SectionBytes(t2, v2) + (SectionBytes(t3, v3) + (SectionBytes(t4, v4) + (e + rest))))
    ensures SectionsAt(data, 0, map[]) == Ok(Some(map[][t1 := v1][t2 := v2][t3 := v3][t4 := v4]))
  {
    var q1 := |SectionBytes(t1, v1)|;
    var q2 := q1 + |SectionBytes(t2, v2)|;
    var q3 := q2 + |SectionBytes(t3, v3)|;
    var q4 := q3 + |SectionBytes(t4, v4)|;
    var m0: map<string, seq<string>> := map[];
    TwoSectionsThen(data, 0, t1, v1, t2, v2, m0, q1, q2, SectionBytes(t3, v3) + (SectionBytes(t4, v4) + (e + rest)));
    var m2 := m0[t1 := v1][t2 := v2];
    TwoSectionsThen(data, q2, t3, v3, t4, v4, m2, q3, q4, e + rest);
    EndThen(data, q4, m2[t3 := v3][t4 := v4], rest);
  }

  /** A section declaring more than the bound makes the reader give up with `None`. */
  lemma OversizedSectionGivesNone(data: seq<byte>, pos: nat, tag: string, count: int, acc: map<string, seq<string>>, tail: seq<byte>)
    requires Writable(tag) && tag != BinaryEndMarker
    requires MaxSectionLength < count <= MaxInt32
    requires pos <= |data| && data[pos..] == EncodeString(tag) + (EncodeInt32(count) + tail)
    ensures SectionsAt(data, pos, acc) == Ok(None)
  {
    var p1 := pos + |EncodeString(tag)|;
    StringThen(data, pos, tag, p1, EncodeInt32(count) + tail);
    Int32Then(data, p1, count, p1 + 4, tail);
  }

  /** A section declaring a negative count is rejected as an overflow. */
  lemma NegativeSectionOverflows(data: seq<byte>, pos: nat, tag: string, count: int, acc: map<string, seq<string>>, tail: seq<byte>)
    requires Writable(tag) && tag != BinaryEndMarker
    requires MinInt32 <= count < 0
    requires pos <= |data| && data[pos..] == EncodeString(tag) + (EncodeInt32(count) + tail)
    ensures SectionsAt(data, pos, acc) == Err(Overflow)
  {
    var p1 := pos + |EncodeString(tag)|;
    StringThen(data, pos, tag, p1, EncodeInt32(count) + tail);
    Int32Then(data, p1, count, p1 + 4, tail);
  }

  /** A tag already read, read again with its whole section, is an argument error. */
  lemma RepeatedTagRejected(data: seq<byte>, pos: nat, tag: string, values: seq<string>, acc: map<string, seq<string>>, tail: seq<byte>)
    requires Writable(tag) && tag != BinaryEndMarker && tag in acc
    requires |values| <= MaxSectionLength && forall s <- values :: Writable(s)
    requires pos <= |data| && data[pos..] == SectionBytes(tag, values) + tail
    ensures SectionsAt(data, pos, acc) == Err(ArgumentError)
  {
    var c, b := EncodeInt32(|values|), StringsBytes(values);
    var p1 := pos + |EncodeString(tag)|;
    var p2 := p1 + 4;
    var p3 := p2 + |b|;
    SectionBytesParts(tag, values, tail);
    StringThen(data, pos, tag, p1, c + (b + tail));
    Int32Then(data, p1, |values|, p2, b + tail);
    StringsThen(data, p2, values, |values|, p3, tail);
  }
}
