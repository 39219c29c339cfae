/**
 The link between the mode promised in M4 and the geometry the pipeline is built with: the daemon's
 capability exchange, the start of the negotiated stream, and teardown.
 */
module DaemonGeometry {
  import opened Wrappers
  import opened Text
  import opened VideoModes
  import opened VideoFormatLines
  import RtspSessions

  datatype DaemonConfig = DaemonConfig(width: nat, height: nat, framerate: nat, bitrate: nat, extendMode: bool) {
    function ToCaps(): Caps {
      Caps(width, height, framerate)
    }
  }

  datatype StreamGeometry = StreamGeometry(width: nat, height: nat, framerate: nat, bitrate: nat)

  /** The source's own value, sent when no mode can be selected. */
  const FALLBACK_FORMATS := "38 00 01 04 00000080 00000000 00000000 00 0000 0000 00 none none"

  const FORMATS_KEY := "wfd_video_formats"

  /** What the exchange may remember for the sink's capabilities. */
  ghost predicate Chosen(sinkCaps: map<string, string>, caps: Caps, selected: Option<SelectedVideoMode>) {
    if FORMATS_KEY in sinkCaps then Selects(sinkCaps[FORMATS_KEY], caps, selected) else selected.None?
  }

  function M4Value(selected: Option<SelectedVideoMode>): string {
    match selected
    case Some(mode) => mode.wfdVideoFormats
    case None => FALLBACK_FORMATS
  }

  /** The geometry the pipeline is built with: a selected mode wins over the configuration. */
  function GeometryFor(config: DaemonConfig, selected: Option<SelectedVideoMode>): StreamGeometry {
    match selected
    case Some(mode) =>
      StreamGeometry(mode.width, mode.height, mode.framerate, if config.extendMode then 10_000_000 else config.bitrate)
    case None =>
      if config.extendMode then StreamGeometry(1920, 1080, config.framerate, 10_000_000)
      else StreamGeometry(config.width, config.height, config.framerate, config.bitrate)
  }

  /** A sink reading the line finds one codec entry with one CEA bit, and that bit stands for the geometry. */
  ghost predicate Denotes(line: string, g: StreamGeometry) {
    var parsed := ParseSinkVideoFormats(line);
    && parsed.Some? && |parsed.value.entries| == 1
    && var e := parsed.value.entries[0];
    && e.vesa == 0 && e.hh == 0
    && exists j: nat :: j < |CEA_MODES| && OnlyBit(e.cea, j)
         && g.width == CEA_MODES[j].width && g.height == CEA_MODES[j].height && g.framerate == CEA_MODES[j].framerate
  }

  // ---------- The fallback ----------

  const FALLBACK_ENTRY := SinkCodecEntry(1, 4, 0x80, 0, 0, ["00", "0000", "0000", "00", "none", "none"])

  /** The words of the fallback value. */
  function FallbackFields(): seq<string> {
    ["38", "00", "01", "04", "00000080", "00000000", "00000000"] + ["00", "0000", "0000", "00", "none", "none"]
  }

  lemma FallbackNumbers()
    ensures Padded(1, 16, 2) == "01" && Padded(4, 16, 2) == "04" && Padded(0, 16, 8) == "00000000" && Padded(0x80, 16, 8) == "00000080"
  {
    OneDigit(1);
    OneDigit(4);
    OneDigit(0);
    assert Digits(0x80, 16) == "80" by {
      DigitsAre(0x80, 16);
      DigitsAre(8, 16);
      assert DIGITS[8] == '8' && DIGITS[0] == '0';
      hide Digits;
    }
    assert Zeros(6) == "000000" && Zeros(7) == "0000000" && Zeros(1) == "0";
    hide Digits;
    assert "000000" + "80" == "00000080" && "0000000" + "0" == "00000000" && "0" + "1" == "01" && "0" + "4" == "04";
  }

  lemma OneDigit(n: nat)
    requires n < 10
    ensures Digits(n, 16) == [('0' as int + n) as char]
  {
    DigitsAre(n, 16);
    assert DIGITS[..10] == "0123456789";
    assert DIGITS[n] == DIGITS[..10][n];
    hide Digits;
  }

  lemma FallbackJoin()
    ensures FALLBACK_FORMATS == Join(FallbackFields(), " ")
  {
    var front := ["38", "00", "01", "04", "00000080", "00000000", "00000000"];
    var back := ["00", "0000", "0000", "00", "none", "none"];
    FrontJoin();
    BackJoin();
    hide Join, FALLBACK_FORMATS;
    JoinAppend(front, back, " ");
    FallbackPieces();
  }

  lemma FallbackPieces()
    ensures FALLBACK_FORMATS == "38 00 01 04 00000080 00000000 00000000" + " " + "00 0000 0000 00 none none"
  {
  }

  lemma FrontJoin()
    ensures Join(["38", "00", "01", "04", "00000080", "00000000", "00000000"], " ") == "38 00 01 04 00000080 00000000 00000000"
  {
    JoinThree("38", "00", "01");
    JoinThree("00000080", "00000000", "00000000");
    hide Join;
    JoinOne("04");
    JoinAppend(["38", "00", "01"], ["04"], " ");
    JoinAppend(["38", "00", "01"] + ["04"], ["00000080", "00000000", "00000000"], " ");
    assert ["38", "00", "01"] + ["04"] + ["00000080", "00000000", "00000000"] == ["38", "00", "01", "04", "00000080", "00000000", "00000000"];
  }

  lemma BackJoin()
    ensures Join(["00", "0000", "0000", "00", "none", "none"], " ") == "00 0000 0000 00 none none"
  {
    JoinThree("00", "0000", "0000");
    JoinThree("00", "none", "none");
    hide Join;
    JoinAppend(["00", "0000", "0000"], ["00", "none", "none"], " ");
    assert ["00", "0000", "0000"] + ["00", "none", "none"] == ["00", "0000", "0000", "00", "none", "none"];
  }

  lemma JoinOne(a: string)
    ensures Join([a], " ") == a
  {
  }

  lemma JoinThree(a: string, b: string, c: string)
    ensures Join([a, b, c], " ") == a + " " + (b + " " + c)
  {
    assert [a, b, c][1..] == [b, c] && [b, c][1..] == [c];
    assert Join([b, c], " ") == b + " " + Join([c], " ");
  }

  lemma FallbackPlain()
    ensures forall w :: w in FallbackFields() ==> IsField(w)
    ensures ',' !in FALLBACK_FORMATS
  {
    FallbackJoin();
    hide FALLBACK_FORMATS, Join;
    JoinHasNo(FallbackFields(), ',');
  }

  /** A sink that asks for our formats gets the fallback while nothing else is stored. */
  lemma FallbackIsAnswered()
    ensures RtspSessions.ParameterAnswer(map[], [FORMATS_KEY])
         == Success("wfd_video_formats: " + FALLBACK_FORMATS + "\r\n")
  {
    FormatsDefault();
    DefaultAnswered(FORMATS_KEY, FALLBACK_FORMATS);
    assert FORMATS_KEY + ": " == "wfd_video_formats: ";
  }

  lemma FormatsDefault()
    ensures RtspSessions.CapabilityOf(FORMATS_KEY).Some? && RtspSessions.DefaultValue(FORMATS_KEY) == Some(FALLBACK_FORMATS)
  {
  }

  lemma DefaultAnswered(name: string, value: string)
    requires RtspSessions.CapabilityOf(name).Some? && RtspSessions.DefaultValue(name) == Some(value)
    ensures RtspSessions.ParameterAnswer(map[], [name]) == Success(name + ": " + value + "\r\n")
  {
    hide RtspSessions.CapabilityOf, RtspSessions.DefaultValue;
    assert [name][1..] == [];
    assert RtspSessions.ParameterAnswer(map[], []) == Success("");
    assert name + ": " + value + "\r\n" + "" == name + ": " + value + "\r\n";
  }

  /** A sink reads the fallback as the constrained baseline profile at level 4.0 with the one mode 1080p30. */
  lemma FallbackReads()
    ensures ParseSinkVideoFormats(FALLBACK_FORMATS)
         == Some(SinkVideoFormats("38", "00", [FALLBACK_ENTRY]))
  {
    FallbackShows(FALLBACK_ENTRY);
    FallbackFits();
    hide *;
    OneChunkRead(FALLBACK_FORMATS, "38", "00", FALLBACK_ENTRY);
  }

  lemma FallbackFits()
    ensures Fits(FALLBACK_ENTRY)
  {
  }

  lemma OneChunkRead(value: string, native: string, preferred: string, e: SinkCodecEntry)
    requires Shows(value, [native, preferred], e) && Fits(e)
    ensures ParseSinkVideoFormats(value) == Some(SinkVideoFormats(native, preferred, [e]))
  {
    hide Shows, ParseSinkVideoFormats, Join, Fits;
    JoinOneChunk(value);
    EveryEntryParsed([value], SinkVideoFormats(native, preferred, [e]));
  }

  lemma FallbackShows(entry: SinkCodecEntry)
    requires entry == FALLBACK_ENTRY
    ensures Shows(FALLBACK_FORMATS, ["38", "00"], entry)
  {
    FallbackNumbers();
    FallbackWords();
    FallbackPlain();
    hide FALLBACK_FORMATS, Padded, Words, Lower;
    var fields := FallbackFields();
    assert fields[..2] == ["38", "00"] && fields[2..13] == EntryFields(entry);
  }

  lemma FallbackWords()
    ensures Words(FALLBACK_FORMATS) == FallbackFields()
  {
    FallbackPlain();
    FallbackJoin();
    hide *;
    FieldsAreTokens();
    WordsJoin(FallbackFields());
  }

  lemma FieldsAreTokens()
    requires forall w :: w in FallbackFields() ==> IsField(w)
    ensures forall w :: w in FallbackFields() ==> IsToken(w)
  {
    hide IsToken, FallbackFields;
  }

  lemma JoinOneChunk(s: string)
    ensures Join([s], ",") == s
  {
  }

  /**
   Main result: without a selected mode M4 promises 1080p30, and the pipeline is built with what is configured, or with
   1080p in extend mode; so the promise is kept exactly when these are 1920 by 1080 at 30 frames.
   */
  lemma FallbackKeepsPromise(config: DaemonConfig)
    ensures M4Value(None) == FALLBACK_FORMATS
    ensures GeometryFor(config, None)
         == if config.extendMode then StreamGeometry(1920, 1080, config.framerate, 10_000_000)
            else StreamGeometry(config.width, config.height, config.framerate, config.bitrate)
    ensures Denotes(M4Value(None), GeometryFor(config, None))
       <==> config.framerate == 30 && (config.extendMode || (config.width == 1920 && config.height == 1080))
  {
    FallbackReads();
    OnlyRow();
    hide ParseSinkVideoFormats, OnlyBit, FALLBACK_FORMATS;
    assert CEA_MODES[7] == WfdMode(7, 1920, 1080, 30, false);
  }

  lemma OnlyRow()
    ensures forall j: nat :: OnlyBit(0x80, j) <==> j == 7
  {
    assert Pow2(7) == 0x80;
    PowerHasOnlyBit(7);
    hide HasBit, Pow2;
    forall j: nat ensures OnlyBit(0x80, j) <==> j == 7 {
      if OnlyBit(0x80, j) {
        assert HasBit(0x80, 7) <==> 7 == j;
        assert HasBit(0x80, 7) <==> 7 == 7;
      }
    }
  }

  /** Whenever a mode is selected, the pipeline is built with the geometry M4 denotes, within the configured caps. */
  lemma PipelineKeepsPromise(config: DaemonConfig, sinkCaps: map<string, string>, selected: Option<SelectedVideoMode>)
    requires Chosen(sinkCaps, config.ToCaps(), selected) && selected.Some?
    ensures var g := GeometryFor(config, selected);
            Denotes(M4Value(selected), g)
            && g.width <= config.width && g.height <= config.height && g.framerate <= config.framerate
  {
    var formats, mode := sinkCaps[FORMATS_KEY], selected.value;
    M4FixedPoint(formats, config.ToCaps(), mode);
    var f := ParseSinkVideoFormats(formats).value;
    var i: nat, j: nat :| IsBest(f, config.ToCaps(), i, j) && Names(f, i, j, mode);
    assert Usable(f.entries[i], CEA_MODES[j], config.ToCaps());
  }

  /** The selection is a function of this sink's capabilities and the caps: nothing of an earlier session enters. */
  lemma EarlierSessionsForgotten(config: DaemonConfig, sinkCaps: map<string, string>,
                                 selected: Option<SelectedVideoMode>, selected': Option<SelectedVideoMode>)
    requires Chosen(sinkCaps, config.ToCaps(), selected) && Chosen(sinkCaps, config.ToCaps(), selected')
    ensures selected == selected'
  {
    if FORMATS_KEY in sinkCaps {
      SelectionUnique(sinkCaps[FORMATS_KEY], config.ToCaps(), selected, selected');
    }
  }

  /** What one negotiation brings: the sink's capabilities, whether it accepted ours, and whether it then sent PLAY. */
  datatype Negotiation = Negotiation(reply: Option<map<string, string>>, accepted: bool, played: bool)

  /** A stream is built from this negotiation alone, and its geometry is the one promised. */
  ghost predicate Built(config: DaemonConfig, n: Negotiation, stream: Option<(string, StreamGeometry)>) {
    && (stream.Some? <==> n.reply.Some? && n.accepted && n.played)
    && (stream.Some? ==> exists selected :: BuiltFor(config, n.reply.value, stream.value, selected))
  }

  ghost predicate BuiltFor(config: DaemonConfig, sinkCaps: map<string, string>, stream: (string, StreamGeometry), selected: Option<SelectedVideoMode>) {
    && Chosen(sinkCaps, config.ToCaps(), selected)
    && stream == (M4Value(selected), GeometryFor(config, selected))
    && (selected.Some? ==> Denotes(stream.0, stream.1))
  }

  /** Two streams built for the same negotiation are the same. */
  lemma BuiltOnce(config: DaemonConfig, n: Negotiation, a: Option<(string, StreamGeometry)>, b: Option<(string, StreamGeometry)>)
    requires Built(config, n, a) && Built(config, n, b)
    ensures a == b
  {
    if a.Some? {
      var selected :| BuiltFor(config, n.reply.value, a.value, selected);
      var selected' :| BuiltFor(config, n.reply.value, b.value, selected');
      EarlierSessionsForgotten(config, n.reply.value, selected, selected');
    }
  }

  class Daemon {
    const config: DaemonConfig
    var selectedVideoMode: Option<SelectedVideoMode>

    constructor (config: DaemonConfig)
      ensures this.config == config && selectedVideoMode == None
    {
      this.config := config;
      selectedVideoMode := None;
    }

    /**
     `reply` is the sink's answer to OPTIONS and GET_PARAMETER, None when either request failed;
     `accepted` tells whether SET_PARAMETER went through. The result is the M4 value sent.
     */
    method ExchangeCapabilities(reply: Option<map<string, string>>, accepted: bool) returns (m4: Option<string>)
      modifies this
      ensures reply.None? ==> selectedVideoMode == old(selectedVideoMode)
      ensures reply.Some? ==> Chosen(reply.value, config.ToCaps(), selectedVideoMode)
      ensures m4 == if reply.Some? && accepted then Some(M4Value(selectedVideoMode)) else None
    {
      if reply.None? {
        return None;
      }
      selectedVideoMode := None;
      var formats: string;
      if FORMATS_KEY in reply.value {
        var selected := SelectVideoMode(reply.value[FORMATS_KEY], config.ToCaps());
        if selected.Some? {
          formats := selected.value.wfdVideoFormats;
          selectedVideoMode := selected;
        } else {
          formats := FALLBACK_FORMATS;
        }
      } else {
        formats := FALLBACK_FORMATS;
      }
      m4 := if accepted then Some(formats) else None;
    }

    /** A whole negotiation; a stream is built only when the exchange succeeded and the sink then sent PLAY. */
    method NegotiateStream(reply: Option<map<string, string>>, accepted: bool, played: bool)
        returns (m4: string, geometry: Option<StreamGeometry>)
      modifies this
      ensures geometry.Some? <==> reply.Some? && accepted && played
      ensures geometry.Some? ==> Chosen(reply.value, config.ToCaps(), selectedVideoMode)
      ensures geometry.Some? ==> m4 == M4Value(selectedVideoMode) && geometry.value == GeometryFor(config, selectedVideoMode)
      ensures geometry.Some? ==> geometry.value.bitrate == if config.extendMode then 10_000_000 else config.bitrate
      ensures geometry.Some? && selectedVideoMode.None? ==>
                && geometry.value.framerate == config.framerate
                && (geometry.value.width, geometry.value.height) == if config.extendMode then (1920, 1080) else (config.width, config.height)
      ensures geometry.Some? && selectedVideoMode.Some? ==>
                Denotes(m4, geometry.value) && geometry.value.width <= config.width
                && geometry.value.height <= config.height && geometry.value.framerate <= config.framerate
    {
      var sent := ExchangeCapabilities(reply, accepted);
      if sent.None? || !played {
        return "", None;
      }
      if selectedVideoMode.Some? {
        PipelineKeepsPromise(config, reply.value, selectedVideoMode);
      }
      return sent.value, Some(GeometryFor(config, selectedVideoMode));
    }

    method Teardown()
      modifies this
      ensures selectedVideoMode == None
    {
      selectedVideoMode := None;
    }

    /**
     Session after session on one daemon, each torn down before the next: every stream is what its own negotiation
     determines, whatever earlier sessions selected, and nothing stays selected afterwards.
     */
    method Serve(negotiations: seq<Negotiation>) returns (streams: seq<Option<(string, StreamGeometry)>>)
      modifies this
      ensures |streams| == |negotiations|
      ensures forall i :: 0 <= i < |streams| ==> Built(config, negotiations[i], streams[i])
      ensures negotiations != [] ==> selectedVideoMode == None
    {
      hide Chosen, Denotes, GeometryFor, M4Value;
      streams := [];
      for i := 0 to |negotiations|
        invariant |streams| == i
        invariant forall k :: 0 <= k < i ==> Built(config, negotiations[k], streams[k])
        invariant i > 0 ==> selectedVideoMode == None
      {
        var n := negotiations[i];
        var m4, geometry := NegotiateStream(n.reply, n.accepted, n.played);
        var stream := if geometry.Some? then Some((m4, geometry.value)) else None;
        assert stream.Some? ==> BuiltFor(config, n.reply.value, stream.value, selectedVideoMode);
        streams := streams + [stream];
        Teardown();
      }
    }
  }
}
