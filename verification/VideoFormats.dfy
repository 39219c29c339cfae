/**
 Which codec entries the parser finds in an advertised value: all of them, in order, whatever stands between.
 */
module VideoFormatLines {
  import opened Wrappers
  import opened Text
  import opened VideoModes

  predicate Fits(e: SinkCodecEntry) {
    && e.profile <= MAX_U32 && e.level <= MAX_U32 && e.cea <= MAX_U32 && e.vesa <= MAX_U32 && e.hh <= MAX_U32
    && |e.tail| == 6 && forall t :: t in e.tail ==> IsField(t)
  }

  /** The eleven fields of an entry as sinks print them. */
  function EntryFields(e: SinkCodecEntry): seq<string> {
    [Padded(e.profile, 16, 2), Padded(e.level, 16, 2), Padded(e.cea, 16, 8), Padded(e.vesa, 16, 8), Padded(e.hh, 16, 8)] + e.tail
  }

  /** One chunk of the value: its words are those of the entry, perhaps with more behind them, in either letter case. */
  predicate Shows(chunk: string, front: seq<string>, e: SinkCodecEntry) {
    ',' !in chunk
    && |Words(chunk)| >= |front| + 11
    && Words(chunk)[..|front|] == front
    && SameButCase(Words(chunk)[|front|..|front| + 11], EntryFields(e))
  }

  /** The five numbers may be printed in either letter case. */
  predicate SameButCase(fields: seq<string>, printed: seq<string>) {
    && |fields| == |printed| == 11
    && (forall i :: 0 <= i < 5 ==> fields[i] == printed[i] || fields[i] == Lower(printed[i]))
    && fields[5..] == printed[5..]
  }

  lemma MaskReads(field: string, n: nat, width: nat)
    requires n <= MAX_U32 && (field == Padded(n, 16, width) || field == Lower(Padded(n, 16, width)))
    ensures ParseMask(field) == Some(n)
  {
    hide ParseUnsigned, Padded, Lower;
    ParsePrinted(n, 16, width, MAX_U32);
    ParseLower(Padded(n, 16, width), 16, MAX_U32);
  }

  /** Such fields are read as the entry, whatever follows them. */
  lemma EntryReads(fields: seq<string>, e: SinkCodecEntry)
    requires Fits(e) && |fields| >= 11 && SameButCase(fields[..11], EntryFields(e))
    ensures ParseCodecEntry(fields) == Some(e)
  {
    hide ParseMask, Padded, Lower;
    var printed := EntryFields(e);
    assert printed[5..] == e.tail && fields[..11][5..] == fields[5..11];
    assert forall i :: 0 <= i < 5 ==> fields[..11][i] == fields[i];
    MaskReads(fields[0], e.profile, 2);
    MaskReads(fields[1], e.level, 2);
    MaskReads(fields[2], e.cea, 8);
    MaskReads(fields[3], e.vesa, 8);
    MaskReads(fields[4], e.hh, 8);
  }

  lemma ChunkReads(chunk: string, front: seq<string>, e: SinkCodecEntry)
    requires Fits(e) && Shows(chunk, front, e)
    ensures Words(Trim(chunk)) == Words(chunk) && ParseCodecEntry(Words(Trim(chunk))[|front|..]) == Some(e)
  {
    hide Words, Trim, ParseCodecEntry, Fits, SameButCase, EntryFields;
    WordsOfTrim(chunk);
    var fields := Words(chunk)[|front|..];
    assert fields[..11] == Words(chunk)[|front|..|front| + 11];
    EntryReads(fields, e);
  }

  lemma {:induction false} EntriesRead(chunks: seq<string>, entries: seq<SinkCodecEntry>)
    requires |chunks| == |entries|
    requires forall i :: 0 <= i < |chunks| ==> Fits(entries[i]) && Shows(chunks[i], [], entries[i])
    ensures ParseEntries(chunks) == entries
  {
    hide Words, Trim, ParseCodecEntry, Fits, Shows;
    if chunks != [] {
      ChunkReads(chunks[0], [], entries[0]);
      assert Words(Trim(chunks[0]))[0..] == Words(Trim(chunks[0]));
      EntriesRead(chunks[1..], entries[1..]);
      assert entries == [entries[0]] + entries[1..];
    }
  }

  /** The value shows these formats: the native and the preferred mode before the first entry, and one chunk an entry. */
  predicate ShowsAll(chunks: seq<string>, f: SinkVideoFormats) {
    && |chunks| == |f.entries| > 0
    && (forall i :: 0 <= i < |chunks| ==> Fits(f.entries[i]))
    && Shows(chunks[0], [f.native, f.preferredDisplayMode], f.entries[0])
    && (forall i :: 1 <= i < |chunks| ==> Shows(chunks[i], [], f.entries[i]))
  }

  /**
   Main result: every list of codec entries that a value shows, joined by commas, is what the parser returns, in order,
   with the native and the preferred mode; white space, further fields and the letter case of numbers do not matter.
   */
  lemma EveryEntryParsed(chunks: seq<string>, f: SinkVideoFormats)
    requires ShowsAll(chunks, f)
    ensures ParseSinkVideoFormats(Join(chunks, ",")) == Some(f)
  {
    NoCommas(chunks, f);
    hide *;
    SplitJoin(chunks, ',');
    FirstReads(chunks, f);
    RestReads(chunks, f);
    FirstAndRest(Join(chunks, ","), chunks, f.native, f.preferredDisplayMode, f.entries[0]);
    assert [f.entries[0]] + f.entries[1..] == f.entries;
  }

  lemma NoCommas(chunks: seq<string>, f: SinkVideoFormats)
    requires ShowsAll(chunks, f)
    ensures |chunks| == |f.entries| > 0 && forall c :: c in chunks ==> ',' !in c
  {
    hide Words, SameButCase, Fits;
  }

  lemma FirstReads(chunks: seq<string>, f: SinkVideoFormats)
    requires ShowsAll(chunks, f)
    ensures var first := Words(Trim(chunks[0]));
            |first| >= 13 && first[0] == f.native && first[1] == f.preferredDisplayMode && ParseCodecEntry(first[2..]) == Some(f.entries[0])
  {
    hide Words, Trim, ParseCodecEntry, Fits, SameButCase;
    var front := [f.native, f.preferredDisplayMode];
    ChunkReads(chunks[0], front, f.entries[0]);
    var first := Words(chunks[0]);
    assert first[..2] == front && first[0] == first[..2][0] && first[1] == first[..2][1];
  }

  lemma RestReads(chunks: seq<string>, f: SinkVideoFormats)
    requires ShowsAll(chunks, f)
    ensures ParseEntries(chunks[1..]) == f.entries[1..]
  {
    hide Fits, Shows, ParseEntries;
    EntriesRead(chunks[1..], f.entries[1..]);
  }

  lemma FirstAndRest(value: string, chunks: seq<string>, native: string, preferred: string, e: SinkCodecEntry)
    requires SplitOn(value, ',') == chunks
    requires var first := Words(Trim(chunks[0]));
             |first| >= 13 && first[0] == native && first[1] == preferred && ParseCodecEntry(first[2..]) == Some(e)
    ensures ParseSinkVideoFormats(value) == Some(SinkVideoFormats(native, preferred, [e] + ParseEntries(chunks[1..])))
  {
    hide SplitOn, Words, Trim, ParseCodecEntry, ParseEntries;
  }

  /** Too few fields, or a number that is none or too large. */
  predicate Unreadable(chunk: string) {
    || |Words(chunk)| < 11
    || exists i :: 0 <= i < 5 && ParseUnsigned(Words(chunk)[i], 16, MAX_U32).None?
  }

  lemma UnreadableIsDropped(chunk: string)
    ensures ParseCodecEntry(Words(Trim(chunk))).None? <==> Unreadable(chunk)
  {
    hide Words, Trim, ParseUnsigned;
    WordsOfTrim(chunk);
  }

  lemma {:induction false} EntriesAppend(a: seq<string>, b: seq<string>)
    ensures ParseEntries(a + b) == ParseEntries(a) + ParseEntries(b)
  {
    hide Words, Trim, ParseCodecEntry;
    if a == [] {
      assert a + b == b;
    } else {
      assert (a + b)[0] == a[0] && (a + b)[1..] == a[1..] + b;
      EntriesAppend(a[1..], b);
    }
  }

  /** Main result: an unreadable chunk behind the first changes nothing. */
  lemma UnreadableIgnored(a: seq<string>, bad: string, b: seq<string>)
    requires a != [] && (forall c :: c in a + [bad] + b ==> ',' !in c) && Unreadable(bad)
    ensures ParseSinkVideoFormats(Join(a + [bad] + b, ",")) == ParseSinkVideoFormats(Join(a + b, ","))
  {
    hide *;
    Members(a, bad, b);
    SplitJoin(a + [bad] + b, ',');
    SplitJoin(a + b, ',');
    Cuts(a, bad, b);
    BadDropped(a[1..], bad, b);
    SameEntries(Join(a + [bad] + b, ","), Join(a + b, ","), a + [bad] + b, a + b);
  }

  lemma Members(a: seq<string>, bad: string, b: seq<string>)
    requires forall c :: c in a + [bad] + b ==> ',' !in c
    ensures forall c :: c in a + b ==> ',' !in c
  {
    assert forall c :: c in a + b ==> c in a + [bad] + b;
  }

  lemma Cuts(a: seq<string>, bad: string, b: seq<string>)
    requires a != []
    ensures (a + [bad] + b)[0] == a[0] == (a + b)[0]
    ensures (a + [bad] + b)[1..] == a[1..] + ([bad] + b) && (a + b)[1..] == a[1..] + b
  {
  }

  lemma BadDropped(a: seq<string>, bad: string, b: seq<string>)
    requires Unreadable(bad)
    ensures ParseEntries(a + ([bad] + b)) == ParseEntries(a + b)
  {
    hide Words, Trim, ParseCodecEntry, Unreadable;
    UnreadableIsDropped(bad);
    EntriesAppend(a, [bad] + b);
    EntriesAppend(a, b);
    assert ([bad] + b)[1..] == b;
  }

  lemma SameEntries(value: string, value': string, chunks: seq<string>, chunks': seq<string>)
    requires SplitOn(value, ',') == chunks && SplitOn(value', ',') == chunks'
    requires chunks[0] == chunks'[0] && ParseEntries(chunks[1..]) == ParseEntries(chunks'[1..])
    ensures ParseSinkVideoFormats(value) == ParseSinkVideoFormats(value')
  {
    hide SplitOn, Words, Trim, ParseCodecEntry, ParseEntries;
  }

  /** A value is refused exactly when its first chunk lacks a native or preferred mode or a readable entry. */
  lemma FirstChunkDecides(chunks: seq<string>)
    requires chunks != [] && forall c :: c in chunks ==> ',' !in c
    ensures ParseSinkVideoFormats(Join(chunks, ",")).None?
       <==> || |Words(chunks[0])| < 13
            || exists i :: 2 <= i < 7 && ParseUnsigned(Words(chunks[0])[i], 16, MAX_U32).None?
  {
    hide Words, Trim, ParseUnsigned, Join;
    SplitJoin(chunks, ',');
    WordsOfTrim(chunks[0]);
    var words := Words(chunks[0]);
    if |words| >= 13 {
      assert forall i :: 0 <= i < 5 ==> words[2..][i] == words[i + 2];
    }
  }

  // ---------- What the tables say ----------

  predicate IsProgressive(width: nat, height: nat, framerate: nat) {
    exists j :: 0 <= j < |CEA_MODES| && CEA_MODES[j] == WfdMode(j, width, height, framerate, false)
  }

  /** The progressive modes: VGA and SD at their rates, and 720p and 1080p at 24, 25, 30, 50 and 60 frames. */
  lemma ProgressiveModes(width: nat, height: nat, framerate: nat)
    ensures IsProgressive(width, height, framerate)
       <==> || ((width, height, framerate) in {(640, 480, 60), (720, 480, 60), (720, 576, 50)})
            || ((width, height) in {(1280, 720), (1920, 1080)} && framerate in {24, 25, 30, 50, 60})
  {
    assert CEA_MODES[0] == WfdMode(0, 640, 480, 60, false) && CEA_MODES[1] == WfdMode(1, 720, 480, 60, false);
    assert CEA_MODES[3] == WfdMode(3, 720, 576, 50, false);
    assert CEA_MODES[5] == WfdMode(5, 1280, 720, 30, false) && CEA_MODES[6] == WfdMode(6, 1280, 720, 60, false);
    assert CEA_MODES[10] == WfdMode(10, 1280, 720, 25, false) && CEA_MODES[11] == WfdMode(11, 1280, 720, 50, false);
    assert CEA_MODES[15] == WfdMode(15, 1280, 720, 24, false);
    assert CEA_MODES[7] == WfdMode(7, 1920, 1080, 30, false) && CEA_MODES[8] == WfdMode(8, 1920, 1080, 60, false);
    assert CEA_MODES[12] == WfdMode(12, 1920, 1080, 25, false) && CEA_MODES[13] == WfdMode(13, 1920, 1080, 50, false);
    assert CEA_MODES[16] == WfdMode(16, 1920, 1080, 24, false);
  }

  /** How many macroblocks a frame of the mode has. */
  lemma FrameSizes(j: nat)
    requires j < |CEA_MODES|
    ensures FrameMacroblocks(CEA_MODES[j]) == match CEA_MODES[j].height
                                              case 480 => if CEA_MODES[j].width == 640 then 1200 else 1350
                                              case 576 => 1620
                                              case 720 => 3600
                                              case _ => 8160
  {
  }

  /**
   Main result: the lowest H.264 level that carries each progressive mode when all are advertised: 3.1 up to 720p30, 3.2
   for faster 720p, 4.0 for 1080p up to 30 frames and 4.2 for faster 1080p.
   */
  lemma LowestLevels(j: nat)
    requires j < |CEA_MODES| && !CEA_MODES[j].interlaced
    ensures var mode := CEA_MODES[j];
            LowestSufficientLevel(0x1f, mode)
            == Some(if mode.height < 720 || (mode.height == 720 && mode.framerate <= 30) then 1
                    else if mode.height == 720 then 2
                    else if mode.framerate <= 30 then 4
                    else 0x10)
  {
    FrameSizes(j);
    AllLevels();
    assert Pow2(1) == 2 && Pow2(2) == 4 && Pow2(3) == 8 && Pow2(4) == 16;
    hide FrameMacroblocks, HasBit;
    var mode := CEA_MODES[j];
    assert LowestSufficientLevel(0x1f, mode) == SufficientLevelFrom(0x1f, mode, 0);
    assert SufficientLevelFrom(0x1f, mode, 1) == if LevelCarries(0x1f, mode, 1) then Some(2) else SufficientLevelFrom(0x1f, mode, 2);
    assert SufficientLevelFrom(0x1f, mode, 2) == if LevelCarries(0x1f, mode, 2) then Some(4) else SufficientLevelFrom(0x1f, mode, 3);
    assert SufficientLevelFrom(0x1f, mode, 3) == if LevelCarries(0x1f, mode, 3) then Some(8) else SufficientLevelFrom(0x1f, mode, 4);
  }

  lemma AllLevels()
    ensures forall k :: 0 <= k < |H264_LEVELS| ==> HasBit(0x1f, H264_LEVELS[k].0)
  {
    assert HasBit(0x1f, 0) && HasBit(0x1f, 1) && HasBit(0x1f, 2) && HasBit(0x1f, 3) && HasBit(0x1f, 4);
  }
}
