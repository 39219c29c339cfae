/**
 Choosing the single video mode of a session: parsing the sink's `wfd_video_formats`, optimising over
 its codec entries and the CEA table, and printing the M4 line that names exactly one mode.
 */
module VideoModes {
  import opened Wrappers
  import opened Text

  datatype WfdMode = WfdMode(bit: nat, width: nat, height: nat, framerate: nat, interlaced: bool)

  /** The CEA table of the Wi-Fi Display specification; the row number is the bit of the bitmap. */
  const CEA_MODES: seq<WfdMode> := [
    WfdMode(0, 640, 480, 60, false),
    WfdMode(1, 720, 480, 60, false),
    WfdMode(2, 720, 480, 60, true),
    WfdMode(3, 720, 576, 50, false),
    WfdMode(4, 720, 576, 50, true),
    WfdMode(5, 1280, 720, 30, false),
    WfdMode(6, 1280, 720, 60, false),
    WfdMode(7, 1920, 1080, 30, false),
    WfdMode(8, 1920, 1080, 60, false),
    WfdMode(9, 1920, 1080, 60, true),
    WfdMode(10, 1280, 720, 25, false),
    WfdMode(11, 1280, 720, 50, false),
    WfdMode(12, 1920, 1080, 25, false),
    WfdMode(13, 1920, 1080, 50, false),
    WfdMode(14, 1920, 1080, 50, true),
    WfdMode(15, 1280, 720, 24, false),
    WfdMode(16, 1920, 1080, 24, false)
  ]

  const ENTRY_FIELDS: nat := 11

  datatype SinkCodecEntry =
    SinkCodecEntry(profile: nat, level: nat, cea: nat, vesa: nat, hh: nat, tail: seq<string>)

  datatype SinkVideoFormats =
    SinkVideoFormats(native: string, preferredDisplayMode: string, entries: seq<SinkCodecEntry>)

  datatype SelectedVideoMode =
    SelectedVideoMode(width: nat, height: nat, framerate: nat, wfdVideoFormats: string)

  /** The largest geometry the source is configured to produce. */
  datatype Caps = Caps(width: nat, height: nat, framerate: nat)

  // ---------- Parsing the advertised formats ----------

  function ParseMask(field: string): Option<nat> {
    ParseUnsigned(field, 16, MAX_U32)
  }

  function ParseCodecEntry(fields: seq<string>): Option<SinkCodecEntry> {
    if |fields| < ENTRY_FIELDS then None
    else
      match (ParseMask(fields[0]), ParseMask(fields[1]), ParseMask(fields[2]), ParseMask(fields[3]), ParseMask(fields[4]))
      case (Some(profile), Some(level), Some(cea), Some(vesa), Some(hh)) =>
        Some(SinkCodecEntry(profile, level, cea, vesa, hh, fields[5..ENTRY_FIELDS]))
      case _ => None
  }

  /** The entries of the chunks that parse; the others are dropped. */
  function ParseEntries(chunks: seq<string>): seq<SinkCodecEntry> {
    if chunks == [] then []
    else
      var rest := ParseEntries(chunks[1..]);
      match ParseCodecEntry(Words(Trim(chunks[0])))
      case Some(entry) => [entry] + rest
      case None => rest
  }

  function ParseSinkVideoFormats(value: string): Option<SinkVideoFormats> {
    var chunks := SplitOn(value, ',');
    var first := Words(Trim(chunks[0]));
    if |first| < 2 + ENTRY_FIELDS then None
    else
      match ParseCodecEntry(first[2..])
      case None => None
      case Some(entry) => Some(SinkVideoFormats(first[0], first[1], [entry] + ParseEntries(chunks[1..])))
  }

  /** A field of the parameter: non-empty, without white space and without the entry separator. */
  predicate IsField(s: string) {
    IsToken(s) && ',' !in s
  }

  predicate WellFormedEntry(e: SinkCodecEntry) {
    |e.tail| == ENTRY_FIELDS - 5 && forall t :: t in e.tail ==> IsField(t)
  }

  lemma ChunkFields(chunk: string)
    requires ',' !in chunk
    ensures forall w :: w in Words(Trim(chunk)) ==> IsField(w)
  {
    TrimTrims(chunk);
  }

  lemma {:induction false} EntriesWellFormed(chunks: seq<string>)
    requires forall c :: c in chunks ==> ',' !in c
    ensures forall e :: e in ParseEntries(chunks) ==> WellFormedEntry(e)
  {
    if chunks != [] {
      ChunkFields(chunks[0]);
      EntriesWellFormed(chunks[1..]);
    }
  }

  /** Whatever parses consists of fields that can be printed and parsed again. */
  lemma ParsedFieldsAreFields(value: string)
    requires ParseSinkVideoFormats(value).Some?
    ensures var f := ParseSinkVideoFormats(value).value;
            IsField(f.native) && IsField(f.preferredDisplayMode) && forall e :: e in f.entries ==> WellFormedEntry(e)
  {
    var chunks := SplitOn(value, ',');
    assert chunks[0] in chunks;
    ChunkFields(chunks[0]);
    EntriesWellFormed(chunks[1..]);
  }

  method ParseFormats(value: string) returns (r: Option<SinkVideoFormats>)
    ensures r == ParseSinkVideoFormats(value)
  {
    var chunks := SplitOn(value, ',');
    var first := Words(Trim(chunks[0]));
    if |first| < 2 + ENTRY_FIELDS {
      return None;
    }
    var entry := ParseCodecEntry(first[2..]);
    if entry.None? {
      return None;
    }
    var entries := [entry.value];
    for i := 1 to |chunks|
      invariant entries + ParseEntries(chunks[i..]) == [entry.value] + ParseEntries(chunks[1..])
    {
      var next := ParseCodecEntry(Words(Trim(chunks[i])));
      assert chunks[i..][0] == chunks[i] && chunks[i..][1..] == chunks[i + 1..];
      if next.Some? {
        entries := entries + [next.value];
      }
    }
    assert chunks[|chunks|..] == [] && entries + [] == entries;
    return Some(SinkVideoFormats(first[0], first[1], entries));
  }

  // ---------- Bit masks ----------

  function Pow2(n: nat): (p: nat)
    ensures p > 0
  {
    if n == 0 then 1 else 2 * Pow2(n - 1)
  }

  predicate HasBit(mask: nat, bit: nat) {
    if bit == 0 then mask % 2 == 1 else HasBit(mask / 2, bit - 1)
  }

  /** A power of two has exactly its own bit. */
  lemma {:induction false} SingleBit(a: nat, b: nat)
    ensures HasBit(Pow2(a), b) <==> a == b
  {
    if a > 0 && b > 0 {
      SingleBit(a - 1, b - 1);
    } else if b > 0 {
      NoBits(b - 1);
    }
  }

  lemma {:induction false} NoBits(b: nat)
    ensures !HasBit(0, b)
  {
    if b > 0 {
      NoBits(b - 1);
    }
  }

  // ---------- Levels and profiles ----------

  /** (bit, MaxFS, MaxMBPS) of the H.264 levels 3.1, 3.2, 4.0, 4.1 and 4.2. */
  const H264_LEVELS: seq<(nat, nat, nat)> := [
    (0, 3600, 108_000), (1, 5120, 216_000), (2, 8192, 245_760), (3, 8192, 245_760), (4, 8704, 522_240)
  ]

  function DivCeil(a: nat, b: nat): nat
    requires b > 0
  {
    (a + b - 1) / b
  }

  function FrameMacroblocks(mode: WfdMode): nat {
    DivCeil(mode.width, 16) * DivCeil(mode.height, 16)
  }

  /** Level `k` of the table is advertised and its limits admit the mode. */
  predicate LevelCarries(advertised: nat, mode: WfdMode, k: nat)
    requires k < |H264_LEVELS|
  {
    && HasBit(advertised, H264_LEVELS[k].0)
    && FrameMacroblocks(mode) <= H264_LEVELS[k].1
    && FrameMacroblocks(mode) * mode.framerate <= H264_LEVELS[k].2
  }

  function SufficientLevelFrom(advertised: nat, mode: WfdMode, k: nat): Option<nat>
    requires k <= |H264_LEVELS|
    decreases |H264_LEVELS| - k
  {
    if k == |H264_LEVELS| then None
    else if LevelCarries(advertised, mode, k) then Some(Pow2(H264_LEVELS[k].0))
    else SufficientLevelFrom(advertised, mode, k + 1)
  }

  function LowestSufficientLevel(advertised: nat, mode: WfdMode): Option<nat> {
    SufficientLevelFrom(advertised, mode, 0)
  }

  predicate IsLowestLevel(advertised: nat, mode: WfdMode, k: nat) {
    k < |H264_LEVELS| && LevelCarries(advertised, mode, k) && forall i :: 0 <= i < k ==> !LevelCarries(advertised, mode, i)
  }

  lemma {:induction false} SufficientLevelFromIsLowest(advertised: nat, mode: WfdMode, k: nat)
    requires k <= |H264_LEVELS| && forall i :: 0 <= i < k ==> !LevelCarries(advertised, mode, i)
    ensures match SufficientLevelFrom(advertised, mode, k)
            case Some(bit) => exists i :: IsLowestLevel(advertised, mode, i) && bit == Pow2(i)
            case None => forall i :: 0 <= i < |H264_LEVELS| ==> !LevelCarries(advertised, mode, i)
    decreases |H264_LEVELS| - k
  {
    if k < |H264_LEVELS| {
      if LevelCarries(advertised, mode, k) {
        assert H264_LEVELS[k].0 == k;
        assert IsLowestLevel(advertised, mode, k);
      } else {
        SufficientLevelFromIsLowest(advertised, mode, k + 1);
      }
    }
  }

  /** The level named is the lowest advertised one that can carry the mode, and none is named only when none can. */
  lemma LowestSufficientLevelIsLowest(advertised: nat, mode: WfdMode)
    ensures match LowestSufficientLevel(advertised, mode)
            case Some(bit) => exists i :: IsLowestLevel(advertised, mode, i) && bit == Pow2(i)
            case None => forall i :: 0 <= i < |H264_LEVELS| ==> !LevelCarries(advertised, mode, i)
  {
    SufficientLevelFromIsLowest(advertised, mode, 0);
  }

  const PROFILE_CBP: nat := 1

  function PreferredProfile(advertised: nat): Option<nat> {
    if HasBit(advertised, 0) then Some(PROFILE_CBP) else None
  }

  // ---------- Selection ----------

  /** The entry advertises the progressive mode, within the caps, with a profile and a level that can carry it. */
  predicate Usable(entry: SinkCodecEntry, mode: WfdMode, caps: Caps) {
    && !mode.interlaced
    && HasBit(entry.cea, mode.bit)
    && mode.width <= caps.width && mode.height <= caps.height && mode.framerate <= caps.framerate
    && HasBit(entry.profile, 0)
    && exists k :: 0 <= k < |H264_LEVELS| && LevelCarries(entry.level, mode, k)
  }

  predicate Candidate(f: SinkVideoFormats, caps: Caps, i: nat, j: nat) {
    i < |f.entries| && j < |CEA_MODES| && Usable(f.entries[i], CEA_MODES[j], caps)
  }

  /** (area, framerate) compared lexicographically. */
  predicate Larger(area: int, framerate: int, area': int, framerate': int) {
    area > area' || (area == area' && framerate > framerate')
  }

  predicate LargerMode(a: WfdMode, b: WfdMode) {
    Larger(a.width * a.height, a.framerate, b.width * b.height, b.framerate)
  }

  predicate Earlier(i: nat, j: nat, i': nat, j': nat) {
    i < i' || (i == i' && j < j')
  }

  /** Among the pairs earlier than (p, q), `(i, j)` is the first of the largest candidates. */
  ghost predicate BestEarlier(f: SinkVideoFormats, caps: Caps, p: nat, q: nat, i: nat, j: nat) {
    && Candidate(f, caps, i, j) && Earlier(i, j, p, q)
    && forall a: nat, b: nat :: Candidate(f, caps, a, b) && Earlier(a, b, p, q) ==>
         !LargerMode(CEA_MODES[b], CEA_MODES[j]) && (Earlier(a, b, i, j) ==> LargerMode(CEA_MODES[j], CEA_MODES[b]))
  }

  ghost predicate NoneEarlier(f: SinkVideoFormats, caps: Caps, p: nat, q: nat) {
    forall a: nat, b: nat :: Earlier(a, b, p, q) ==> !Candidate(f, caps, a, b)
  }

  ghost predicate IsBest(f: SinkVideoFormats, caps: Caps, i: nat, j: nat) {
    BestEarlier(f, caps, |f.entries|, 0, i, j)
  }

  function Spaced(field: string, rest: string): string {
    field + " " + rest
  }

  /** The M4 value: thirteen fields separated by single spaces. */
  function RenderM4(f: SinkVideoFormats, entry: SinkCodecEntry, mode: WfdMode, profile: nat, level: nat): string {
    Spaced(f.native, Spaced(f.preferredDisplayMode,
      Spaced(Padded(profile, 16, 2), Spaced(Padded(level, 16, 2), Spaced(Padded(Pow2(mode.bit), 16, 8),
      Spaced("00000000", Spaced("00000000", Join(entry.tail, " "))))))))
  }

  /** The mode of a pair of entry and row, with the M4 line that names it. */
  ghost predicate Names(f: SinkVideoFormats, i: nat, j: nat, m: SelectedVideoMode)
    requires i < |f.entries| && j < |CEA_MODES|
  {
    var mode := CEA_MODES[j];
    exists k :: IsLowestLevel(f.entries[i].level, mode, k)
      && m == SelectedVideoMode(mode.width, mode.height, mode.framerate, RenderM4(f, f.entries[i], mode, PROFILE_CBP, Pow2(k)))
  }

  /** What selecting a mode must return for an advertised value, whatever the value. */
  ghost predicate Selects(formats: string, caps: Caps, r: Option<SelectedVideoMode>) {
    match (ParseSinkVideoFormats(formats), r)
    case (None, _) => r.None?
    case (Some(f), None) => forall i: nat, j: nat :: !Candidate(f, caps, i, j)
    case (Some(f), Some(m)) => exists i: nat, j: nat :: IsBest(f, caps, i, j) && Names(f, i, j, m)
  }

  /** The best pair met so far, with its score and the profile and level to name for it. */
  datatype Best = Best(area: int, framerate: int, entry: nat, row: nat, profile: nat, level: nat)

  ghost predicate Progress(f: SinkVideoFormats, caps: Caps, p: nat, q: nat, best: Option<Best>) {
    match best
    case None => NoneEarlier(f, caps, p, q)
    case Some(b) =>
      && BestEarlier(f, caps, p, q, b.entry, b.row)
      && b.area == CEA_MODES[b.row].width * CEA_MODES[b.row].height
      && b.framerate == CEA_MODES[b.row].framerate
      && b.profile == PROFILE_CBP
      && Some(b.level) == LowestSufficientLevel(f.entries[b.entry].level, CEA_MODES[b.row])
  }

  lemma EarlierStep(p: nat, q: nat)
    ensures forall a: nat, b: nat :: Earlier(a, b, p, q + 1) <==> Earlier(a, b, p, q) || (a == p && b == q)
  {
    forall a: nat, b: nat ensures Earlier(a, b, p, q + 1) <==> Earlier(a, b, p, q) || (a == p && b == q) {
    }
  }

  lemma SkipPair(f: SinkVideoFormats, caps: Caps, p: nat, q: nat, best: Option<Best>)
    requires Progress(f, caps, p, q, best) && !Candidate(f, caps, p, q)
    ensures Progress(f, caps, p, q + 1, best)
  {
    EarlierStep(p, q);
  }

  lemma TakePair(f: SinkVideoFormats, caps: Caps, p: nat, q: nat, best: Option<Best>, b: Best)
    requires Progress(f, caps, p, q, best) && Candidate(f, caps, p, q)
    requires b.area == CEA_MODES[q].width * CEA_MODES[q].height && b.framerate == CEA_MODES[q].framerate
    requires b.entry == p && b.row == q && b.profile == PROFILE_CBP
    requires Some(b.level) == LowestSufficientLevel(f.entries[p].level, CEA_MODES[q])
    ensures best.None? || Larger(b.area, b.framerate, best.value.area, best.value.framerate)
            ==> Progress(f, caps, p, q + 1, Some(b))
    ensures !(best.None? || Larger(b.area, b.framerate, best.value.area, best.value.framerate))
            ==> Progress(f, caps, p, q + 1, best)
  {
    EarlierStep(p, q);
  }

  lemma NextEntry(f: SinkVideoFormats, caps: Caps, p: nat, best: Option<Best>)
    requires Progress(f, caps, p, |CEA_MODES|, best)
    ensures Progress(f, caps, p + 1, 0, best)
  {
    assert forall a: nat, b: nat :: Candidate(f, caps, a, b) && Earlier(a, b, p + 1, 0) ==> Earlier(a, b, p, |CEA_MODES|);
  }

  lemma Finished(f: SinkVideoFormats, caps: Caps, formats: string, best: Option<Best>, r: Option<SelectedVideoMode>)
    requires ParseSinkVideoFormats(formats) == Some(f) && Progress(f, caps, |f.entries|, 0, best)
    requires match best
             case None => r.None?
             case Some(b) =>
               var mode := CEA_MODES[b.row];
               r == Some(SelectedVideoMode(mode.width, mode.height, mode.framerate,
                                           RenderM4(f, f.entries[b.entry], mode, b.profile, b.level)))
    ensures Selects(formats, caps, r)
  {
    if best.Some? {
      var b := best.value;
      LowestSufficientLevelIsLowest(f.entries[b.entry].level, CEA_MODES[b.row]);
      assert IsBest(f, caps, b.entry, b.row) && Names(f, b.entry, b.row, r.value);
    } else {
      assert forall a: nat, b: nat :: a < |f.entries| ==> Earlier(a, b, |f.entries|, 0);
    }
  }

  lemma LevelDecidesUse(entry: SinkCodecEntry, mode: WfdMode)
    ensures LowestSufficientLevel(entry.level, mode).Some?
            <==> exists k :: 0 <= k < |H264_LEVELS| && LevelCarries(entry.level, mode, k)
  {
    LowestSufficientLevelIsLowest(entry.level, mode);
  }

  method SelectVideoMode(formats: string, caps: Caps) returns (r: Option<SelectedVideoMode>)
    ensures Selects(formats, caps, r)
  {
    var parsed := ParseFormats(formats);
    if parsed.None? {
      return None;
    }
    var f := parsed.value;
    var best: Option<Best> := None;
    assert Progress(f, caps, 0, 0, best);
    hide Progress, Selects, NoneEarlier, Larger, RenderM4, LowestSufficientLevel;
    for i := 0 to |f.entries|
      invariant Progress(f, caps, i, 0, best)
    {
      var entry := f.entries[i];
      for j := 0 to |CEA_MODES|
        invariant Progress(f, caps, i, j, best)
      {
        var mode := CEA_MODES[j];
        LevelDecidesUse(entry, mode);
        var level := LowestSufficientLevel(entry.level, mode);
        var profile := PreferredProfile(entry.profile);
        if !mode.interlaced && HasBit(entry.cea, mode.bit)
           && mode.width <= caps.width && mode.height <= caps.height && mode.framerate <= caps.framerate
           && level.Some? && profile.Some? {
          var next := Best(mode.width * mode.height, mode.framerate, i, j, profile.value, level.value);
          TakePair(f, caps, i, j, best, next);
          if best.None? || Larger(next.area, next.framerate, best.value.area, best.value.framerate) {
            best := Some(next);
          }
        } else {
          SkipPair(f, caps, i, j, best);
        }
      }
      NextEntry(f, caps, i, best);
    }
    if best.Some? {
      var b := best.value;
      var mode := CEA_MODES[b.row];
      r := Some(SelectedVideoMode(mode.width, mode.height, mode.framerate,
                                  RenderM4(f, f.entries[b.entry], mode, b.profile, b.level)));
    } else {
      r := None;
    }
    Finished(f, caps, formats, best, r);
  }

  /** At most one answer is allowed: the selection is determined by the advertised value and the caps. */
  lemma SelectionUnique(formats: string, caps: Caps, r: Option<SelectedVideoMode>, r': Option<SelectedVideoMode>)
    requires Selects(formats, caps, r) && Selects(formats, caps, r')
    ensures r == r'
  {
    if r.Some? && r'.Some? {
      var f := ParseSinkVideoFormats(formats).value;
      var i: nat, j: nat :| IsBest(f, caps, i, j) && Names(f, i, j, r.value);
      var i': nat, j': nat :| IsBest(f, caps, i', j') && Names(f, i', j', r'.value);
      assert i == i' && j == j';
    }
  }

  /** Raising the caps never loses the selection and never makes it smaller. */
  lemma RaisingCapsNeverHurts(formats: string, caps: Caps, caps': Caps, m: SelectedVideoMode, r: Option<SelectedVideoMode>)
    requires caps.width <= caps'.width && caps.height <= caps'.height && caps.framerate <= caps'.framerate
    requires Selects(formats, caps, Some(m)) && Selects(formats, caps', r)
    ensures r.Some? && !Larger(m.width * m.height, m.framerate, r.value.width * r.value.height, r.value.framerate)
  {
    var f := ParseSinkVideoFormats(formats).value;
    var i: nat, j: nat :| IsBest(f, caps, i, j) && Names(f, i, j, m);
    assert Candidate(f, caps', i, j);
    if r.Some? {
      var i': nat, j': nat :| IsBest(f, caps', i', j') && Names(f, i', j', r.value);
      assert Earlier(i, j, |f.entries|, 0);
      assert !LargerMode(CEA_MODES[j], CEA_MODES[j']);
    }
  }

  // ---------- The M4 line is a fixed point ----------

  lemma JoinSpaced(field: string, rest: seq<string>)
    requires rest != []
    ensures Join([field] + rest, " ") == Spaced(field, Join(rest, " "))
  {
    assert ([field] + rest)[1..] == rest;
  }

  function M4Fields(f: SinkVideoFormats, entry: SinkCodecEntry, mode: WfdMode, level: nat): seq<string> {
    [f.native] + ([f.preferredDisplayMode] + ([Padded(PROFILE_CBP, 16, 2)] + ([Padded(level, 16, 2)]
      + ([Padded(Pow2(mode.bit), 16, 8)] + (["00000000"] + (["00000000"] + entry.tail))))))
  }

  lemma RenderIsJoin(f: SinkVideoFormats, entry: SinkCodecEntry, mode: WfdMode, level: nat)
    requires entry.tail != []
    ensures RenderM4(f, entry, mode, PROFILE_CBP, level) == Join(M4Fields(f, entry, mode, level), " ")
  {
    var r7 := ["00000000"] + entry.tail;
    var r6 := ["00000000"] + r7;
    var r5 := [Padded(Pow2(mode.bit), 16, 8)] + r6;
    var r4 := [Padded(level, 16, 2)] + r5;
    var r3 := [Padded(PROFILE_CBP, 16, 2)] + r4;
    JoinSpaced("00000000", entry.tail);
    JoinSpaced("00000000", r7);
    JoinSpaced(Padded(Pow2(mode.bit), 16, 8), r6);
    JoinSpaced(Padded(level, 16, 2), r5);
    JoinSpaced(Padded(PROFILE_CBP, 16, 2), r4);
    JoinSpaced(f.preferredDisplayMode, r3);
    JoinSpaced(f.native, [f.preferredDisplayMode] + r3);
  }

  /** The advertised fields, printed as M4 and parsed again. */
  lemma ParseRendered(f: SinkVideoFormats, entry: SinkCodecEntry, mode: WfdMode, level: nat)
    requires IsField(f.native) && IsField(f.preferredDisplayMode) && WellFormedEntry(entry)
    requires level <= MAX_U32 && Pow2(mode.bit) <= MAX_U32
    ensures ParseSinkVideoFormats(RenderM4(f, entry, mode, PROFILE_CBP, level))
            == Some(SinkVideoFormats(f.native, f.preferredDisplayMode,
                                     [SinkCodecEntry(PROFILE_CBP, level, Pow2(mode.bit), 0, 0, entry.tail)]))
  {
    var fields := M4Fields(f, entry, mode, level);
    RenderIsJoin(f, entry, mode, level);
    M4FieldsAt(f, entry, mode, level);
    ParseJoined(fields);
    ParsePrinted(PROFILE_CBP, 16, 2, MAX_U32);
    ParsePrinted(level, 16, 2, MAX_U32);
    ParsePrinted(Pow2(mode.bit), 16, 8, MAX_U32);
    ParseZeros();
    ParseM4Entry(fields[2..], level, Pow2(mode.bit), entry.tail);
  }

  lemma M4FieldsAt(f: SinkVideoFormats, entry: SinkCodecEntry, mode: WfdMode, level: nat)
    requires IsField(f.native) && IsField(f.preferredDisplayMode) && WellFormedEntry(entry)
    ensures var fields := M4Fields(f, entry, mode, level);
            && |fields| == 2 + ENTRY_FIELDS && (forall w :: w in fields ==> IsField(w))
            && fields[0] == f.native && fields[1] == f.preferredDisplayMode
            && fields[2..][0] == Padded(PROFILE_CBP, 16, 2) && fields[2..][1] == Padded(level, 16, 2)
            && fields[2..][2] == Padded(Pow2(mode.bit), 16, 8)
            && fields[2..][3] == fields[2..][4] == "00000000" && fields[2..][5..] == entry.tail
  {
  }

  /** The value that one entry's fields denote. */
  function OneEntry(fields: seq<string>): Option<SinkVideoFormats>
    requires |fields| >= 2 + ENTRY_FIELDS
  {
    match ParseCodecEntry(fields[2..])
    case None => None
    case Some(entry) => Some(SinkVideoFormats(fields[0], fields[1], [entry]))
  }

  lemma ParseSingleChunk(value: string, fields: seq<string>)
    requires ',' !in value && Words(Trim(value)) == fields && |fields| >= 2 + ENTRY_FIELDS
    ensures ParseSinkVideoFormats(value) == OneEntry(fields)
  {
    var chunks := SplitOn(value, ',');
    assert chunks == [value] && Words(Trim(chunks[0])) == fields;
    assert ParseEntries(chunks[1..]) == [];
    var entry := ParseCodecEntry(fields[2..]);
    if entry.Some? {
      assert [entry.value] + ParseEntries(chunks[1..]) == [entry.value];
    }
  }

  /** Thirteen fields joined by spaces are one chunk with those fields. */
  lemma ParseJoined(fields: seq<string>)
    requires |fields| == 2 + ENTRY_FIELDS && forall w :: w in fields ==> IsField(w)
    ensures ParseSinkVideoFormats(Join(fields, " ")) == OneEntry(fields)
  {
    WordsJoin(fields);
    JoinHasNo(fields, ',');
    JoinTrimmed(fields);
    TrimIdentity(Join(fields, " "));
    ParseSingleChunk(Join(fields, " "), fields);
  }

  lemma ParseM4Entry(fields: seq<string>, level: nat, cea: nat, tail: seq<string>)
    requires |tail| == ENTRY_FIELDS - 5 && |fields| == ENTRY_FIELDS && fields[5..] == tail
    requires ParseMask(fields[0]) == Some(PROFILE_CBP) && ParseMask(fields[1]) == Some(level)
    requires ParseMask(fields[2]) == Some(cea) && ParseMask(fields[3]) == Some(0) && ParseMask(fields[4]) == Some(0)
    ensures ParseCodecEntry(fields) == Some(SinkCodecEntry(PROFILE_CBP, level, cea, 0, 0, tail))
  {
    assert fields[5..ENTRY_FIELDS] == fields[5..];
  }

  lemma ParseZeros()
    ensures ParseMask("00000000") == Some(0)
  {
    ParsePrinted(0, 16, 8, MAX_U32);
    assert Digits(0, 16) == "0";
    assert Padded(0, 16, 8) == "00000000";
  }

  lemma {:induction false} JoinHasNo(fields: seq<string>, c: char)
    requires c != ' ' && forall w :: w in fields ==> c !in w
    ensures c !in Join(fields, " ")
  {
    if |fields| > 1 {
      JoinHasNo(fields[1..], c);
    }
  }

  lemma {:induction false} JoinTrimmed(fields: seq<string>)
    requires fields != [] && forall w :: w in fields ==> IsToken(w)
    ensures Join(fields, " ") != "" && Trimmed(Join(fields, " "))
  {
    var w := fields[0];
    assert w in fields;
    assert w[0] in w && w[|w| - 1] in w;
    if |fields| > 1 {
      JoinTrimmed(fields[1..]);
    }
  }

  /** The pair of the selection, and what the M4 line parses back to. */
  lemma SelectionParses(formats: string, caps: Caps, m: SelectedVideoMode)
      returns (f: SinkVideoFormats, i: nat, j: nat, k: nat, g: SinkVideoFormats)
    requires Selects(formats, caps, Some(m))
    ensures ParseSinkVideoFormats(formats) == Some(f) && IsBest(f, caps, i, j)
    ensures IsLowestLevel(f.entries[i].level, CEA_MODES[j], k)
    ensures m.width == CEA_MODES[j].width && m.height == CEA_MODES[j].height && m.framerate == CEA_MODES[j].framerate
    ensures m.wfdVideoFormats == RenderM4(f, f.entries[i], CEA_MODES[j], PROFILE_CBP, Pow2(k))
    ensures ParseSinkVideoFormats(m.wfdVideoFormats) == Some(g)
    ensures g == SinkVideoFormats(f.native, f.preferredDisplayMode,
                                  [SinkCodecEntry(PROFILE_CBP, Pow2(k), Pow2(j), 0, 0, f.entries[i].tail)])
  {
    f := ParseSinkVideoFormats(formats).value;
    i, j :| IsBest(f, caps, i, j) && Names(f, i, j, m);
    k := NamedLevel(f, i, j, m);
    ParsedFieldsAreFields(formats);
    SmallPowers(j);
    SmallPowers(k);
    BitIsRow(j);
    ParseRendered(f, f.entries[i], CEA_MODES[j], Pow2(k));
    g := ParseSinkVideoFormats(m.wfdVideoFormats).value;
  }

  lemma NamedLevel(f: SinkVideoFormats, i: nat, j: nat, m: SelectedVideoMode) returns (k: nat)
    requires i < |f.entries| && j < |CEA_MODES| && Names(f, i, j, m)
    ensures IsLowestLevel(f.entries[i].level, CEA_MODES[j], k)
    ensures m.width == CEA_MODES[j].width && m.height == CEA_MODES[j].height && m.framerate == CEA_MODES[j].framerate
    ensures m.wfdVideoFormats == RenderM4(f, f.entries[i], CEA_MODES[j], PROFILE_CBP, Pow2(k))
  {
    var mode := CEA_MODES[j];
    k :| IsLowestLevel(f.entries[i].level, mode, k)
         && m == SelectedVideoMode(mode.width, mode.height, mode.framerate, RenderM4(f, f.entries[i], mode, PROFILE_CBP, Pow2(k)));
  }

  lemma BitIsRow(j: nat)
    requires j < |CEA_MODES|
    ensures CEA_MODES[j].bit == j
  {
  }

  lemma SmallPowers(n: nat)
    requires n < 17
    ensures Pow2(n) <= MAX_U32
  {
    Pow2Bound(n, 16);
    assert Pow2(16) == 65536 by {
      assert Pow2(4) == 16;
      assert Pow2(8) == 256;
      assert Pow2(12) == 4096;
    }
  }

  lemma {:induction false} Pow2Bound(a: nat, b: nat)
    requires a <= b
    ensures Pow2(a) <= Pow2(b)
  {
    if a < b {
      Pow2Bound(a, b - 1);
    }
  }

  /** Exactly one bit of the mask is set, and it is bit `bit`. */
  ghost predicate OnlyBit(mask: nat, bit: nat) {
    forall b: nat :: HasBit(mask, b) <==> b == bit
  }

  lemma PowerHasOnlyBit(n: nat)
    ensures OnlyBit(Pow2(n), n)
  {
    forall b: nat ensures HasBit(Pow2(n), b) <==> b == n {
      SingleBit(n, b);
    }
  }

  /** The selected pair stays the only candidate of the line that names it. */
  lemma OnlyCandidate(f: SinkVideoFormats, caps: Caps, i: nat, j: nat, k: nat, g: SinkVideoFormats)
    requires Candidate(f, caps, i, j) && IsLowestLevel(f.entries[i].level, CEA_MODES[j], k)
    requires |g.entries| == 1 && g.entries[0].profile == PROFILE_CBP
    requires g.entries[0].level == Pow2(k) && g.entries[0].cea == Pow2(j)
    ensures forall a: nat, b: nat :: Candidate(g, caps, a, b) <==> a == 0 && b == j
    ensures IsLowestLevel(g.entries[0].level, CEA_MODES[j], k)
  {
    var e := g.entries[0];
    LevelStays(f.entries[i].level, CEA_MODES[j], k);
    PowerHasOnlyBit(j);
    assert HasBit(PROFILE_CBP, 0);
    assert Usable(e, CEA_MODES[j], caps) by {
      BitIsRow(j);
      assert LevelCarries(e.level, CEA_MODES[j], k);
    }
    forall a: nat, b: nat | Candidate(g, caps, a, b) ensures a == 0 && b == j {
      BitIsRow(b);
    }
  }

  /** A level that carries the mode still does when it is the only one advertised. */
  lemma LevelStays(advertised: nat, mode: WfdMode, k: nat)
    requires IsLowestLevel(advertised, mode, k)
    ensures IsLowestLevel(Pow2(k), mode, k)
  {
    PowerHasOnlyBit(k);
    assert forall n :: 0 <= n < |H264_LEVELS| ==> H264_LEVELS[n].0 == n;
  }

  /**
   Main result: the M4 line is a fixed point. It parses to one entry with one profile, one level and one
   CEA bit, which is the selected row, no VESA and no HH bit and the sink's other fields unchanged; and
   selecting from that line under the same caps returns the identical mode and line.
   */
  lemma M4FixedPoint(formats: string, caps: Caps, m: SelectedVideoMode)
    requires Selects(formats, caps, Some(m))
    ensures var parsed := ParseSinkVideoFormats(m.wfdVideoFormats);
            && parsed.Some? && |parsed.value.entries| == 1
            && var f, e := ParseSinkVideoFormats(formats).value, parsed.value.entries[0];
            && parsed.value.native == f.native && parsed.value.preferredDisplayMode == f.preferredDisplayMode
            && (exists a :: a in f.entries && a.tail == e.tail)
            && e.profile == PROFILE_CBP && (exists k: nat :: OnlyBit(e.level, k)) && e.vesa == 0 && e.hh == 0
            && exists j: nat :: j < |CEA_MODES| && OnlyBit(e.cea, j)
                 && m.width == CEA_MODES[j].width && m.height == CEA_MODES[j].height && m.framerate == CEA_MODES[j].framerate
    ensures forall r :: Selects(m.wfdVideoFormats, caps, r) <==> r == Some(m)
  {
    var f, i, j, k, g := SelectionParses(formats, caps, m);
    PowerHasOnlyBit(j);
    PowerHasOnlyBit(k);
    assert f.entries[i] in f.entries;
    OnlyCandidate(f, caps, i, j, k, g);
    assert IsBest(g, caps, 0, j);
    assert RenderM4(g, g.entries[0], CEA_MODES[j], PROFILE_CBP, Pow2(k)) == m.wfdVideoFormats;
    assert Names(g, 0, j, m);
    assert Selects(m.wfdVideoFormats, caps, Some(m));
    forall r | Selects(m.wfdVideoFormats, caps, r) ensures r == Some(m) {
      SelectionUnique(m.wfdVideoFormats, caps, r, Some(m));
    }
  }
}
