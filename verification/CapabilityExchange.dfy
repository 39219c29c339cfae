/**
 GET_PARAMETER between two ends that follow these rules: what one has stored is what the other collects.
 */
module CapabilityExchanges {
  import opened Wrappers
  import opened Text
  import opened RtspMessages
  import opened RtspSessions
  import opened SetupAgreement
  import opened Parameters
  import opened RtspClients
  import opened VideoModes
  import opened DaemonGeometry

  /** What is answered for a name: its stored value, or else its default. */
  function Answered(capabilities: map<Capability, string>, name: string): Option<string>
    requires Known(name)
  {
    if Stored(capabilities, name).Some? then Stored(capabilities, name) else DefaultValue(name)
  }

  /** The lines of the answer, and the pairs they stand for. */
  function AnswerPairs(capabilities: map<Capability, string>, names: seq<string>): seq<(string, string)>
    requires forall n :: n in names ==> Known(n)
  {
    if names == [] then []
    else
      assert forall n :: n in names[1..] ==> n in names;
      (match Answered(capabilities, names[0])
       case Some(value) => [(names[0], value)]
       case None => []) + AnswerPairs(capabilities, names[1..])
  }

  function PairLines(pairs: seq<(string, string)>): seq<string> {
    if pairs == [] then [] else [pairs[0].0 + ": " + pairs[0].1] + PairLines(pairs[1..])
  }

  /** A value on one line without white space at its edges. */
  predicate IsValue(value: string) {
    Trimmed(value) && '\n' !in value
  }

  predicate GoodPair(p: (string, string)) {
    Known(p.0) && IsValue(p.1)
  }

  /** Made of small letters and underscores behind the prefix of all parameter names. */
  predicate Word(name: string) {
    WFD <= name && forall c :: c in name ==> 'a' <= c <= 'z' || c == '_'
  }

  lemma RtpNames()
    ensures Word("wfd_client_rtp_ports") && Word("wfd_client_rtp_port")
  {
  }

  lemma VideoNames()
    ensures Word("wfd_video_formats") && Word("wfd_video_format") && Word("wfd_display_edid")
  {
  }

  lemma AudioNames()
    ensures Word("wfd_audio_codecs") && Word("wfd_audio_codec") && Word("wfd_coupled_sink")
  {
  }

  lemma UibcNames()
    ensures Word("wfd_uibc_capability") && Word("wfd_uibc_capabilit")
  {
  }

  lemma ProtectionName()
    ensures Word("wfd_content_protection")
  {
  }

  predicate Letters(s: string) {
    forall c :: c in s ==> 'a' <= c <= 'z' || c == '_'
  }

  lemma StandbyFront()
    ensures WFD <= "wfd_standby_" && Letters("wfd_standby_")
  {
  }

  lemma StandbyBack()
    ensures Letters("resume_capability")
  {
  }

  lemma StandbyText()
    ensures "wfd_standby_resume_capability" == "wfd_standby_" + "resume_capability"
  {
  }

  lemma StandbyName()
    ensures Word("wfd_standby_resume_capability")
  {
    hide *;
    StandbyFront();
    StandbyBack();
    StandbyText();
    WordSum("wfd_standby_", "resume_capability");
  }

  lemma WordSum(a: string, b: string)
    requires WFD <= a && Letters(a) && Letters(b)
    ensures Word(a + b)
  {
  }

  lemma KnownIsWord(name: string)
    requires Known(name)
    ensures Word(name)
  {
    KnownNames(name);
    RtpNames();
    VideoNames();
    AudioNames();
    UibcNames();
    ProtectionName();
    StandbyName();
    hide Word, Known;
  }

  lemma NamePlain(name: string)
    requires Known(name)
    ensures WFD <= name && Trimmed(name) && ':' !in name && '\n' !in name
  {
    KnownIsWord(name);
    hide Known;
    assert name != "" ==> name[0] in name && name[|name| - 1] in name;
  }

  lemma FormatsPlain()
    ensures IsValue("38 00 01 04 00000080 00000000 00000000 00 0000 0000 00 none none")
  {
    FallbackText();
    FallbackPlain();
    FallbackJoin();
    hide FALLBACK_FORMATS;
    FieldsAreTokens();
    FieldsUnbroken(FallbackFields());
    hide IsToken, IsField;
    JoinTrimmed(FallbackFields());
    JoinHasNo(FallbackFields(), '\n');
  }

  lemma FieldsUnbroken(fields: seq<string>)
    requires forall w :: w in fields ==> IsToken(w)
    ensures forall w :: w in fields ==> '\n' !in w
  {
  }

  lemma FallbackText()
    ensures FALLBACK_FORMATS == "38 00 01 04 00000080 00000000 00000000 00 0000 0000 00 none none"
  {
  }

  lemma OtherDefaults()
    ensures IsValue("AAC 00000001 00") && IsValue("RTP/UDP") && IsValue("") && IsValue("none")
  {
  }

  lemma DefaultPlain(name: string)
    requires DefaultValue(name).Some?
    ensures IsValue(DefaultValue(name).value)
  {
    FormatsPlain();
    OtherDefaults();
    hide IsValue;
  }

  lemma OneText(capabilities: map<Capability, string>, name: string)
    requires Known(name)
    ensures NameText(capabilities, name)
         == match Answered(capabilities, name) case Some(value) => (name + ": " + value) + "\r\n" case None => ""
  {
    hide CapabilityOf, DefaultValue;
  }

  lemma {:induction false} TextsAreLines(capabilities: map<Capability, string>, names: seq<string>)
    requires forall n :: n in names ==> Known(n)
    ensures AnswerTexts(capabilities, names) == CrLf(PairLines(AnswerPairs(capabilities, names)))
  {
    if names != [] {
      assert names[0] in names && forall n :: n in names[1..] ==> n in names;
      OneText(capabilities, names[0]);
      hide NameText, Answered, Known;
      TextsAreLines(capabilities, names[1..]);
      var rest := AnswerPairs(capabilities, names[1..]);
      match Answered(capabilities, names[0])
      case Some(value) =>
        var line := names[0] + ": " + value;
        assert ([(names[0], value)] + rest)[1..] == rest;
        assert ([line] + PairLines(rest))[1..] == PairLines(rest);
      case None =>
        assert [] + rest == rest && "" + CrLf(PairLines(rest)) == CrLf(PairLines(rest));
    }
  }

  /** The pairs are those of the names that have a value, in order. */
  lemma {:induction false} PairsAre(capabilities: map<Capability, string>, names: seq<string>)
    requires (forall n :: n in names ==> Known(n)) && forall c :: c in capabilities ==> IsValue(capabilities[c])
    ensures forall p :: p in AnswerPairs(capabilities, names) ==> GoodPair(p) && p.0 in names && Answered(capabilities, p.0) == Some(p.1)
    ensures forall n :: n in names && Answered(capabilities, n).Some? ==> (n, Answered(capabilities, n).value) in AnswerPairs(capabilities, names)
  {
    if names != [] {
      var name, rest := names[0], names[1..];
      assert name in names && forall n :: n in rest ==> n in names;
      PairsAre(capabilities, rest);
      ValueGood(capabilities, name);
      hide Known, Answered, IsValue;
      assert forall n :: n in names ==> n == name || n in rest;
    }
  }

  lemma ValueGood(capabilities: map<Capability, string>, name: string)
    requires Known(name) && forall c :: c in capabilities ==> IsValue(capabilities[c])
    ensures Answered(capabilities, name).Some? ==> GoodPair((name, Answered(capabilities, name).value))
  {
    hide CapabilityOf, DefaultValue, IsValue;
    if Stored(capabilities, name).None? && DefaultValue(name).Some? {
      DefaultPlain(name);
    }
  }

  /** The client reads a line of the answer as its pair. */
  lemma LineRead(p: (string, string), rest: seq<string>)
    requires GoodPair(p)
    ensures ResponsePairs([p.0 + ": " + p.1] + rest) == [p] + ResponsePairs(rest)
    ensures '\n' !in p.0 + ": " + p.1
  {
    var (name, value) := p;
    NamePlain(name);
    hide CapabilityOf;
    var line := name + ": " + value;
    assert line == name + [':'] + (" " + value);
    IndexOfIs(name, ':', " " + value);
    assert line[..|name|] == name && line[|name| + 1..] == " " + value;
    TrimIdentity(name);
    TrimIdentity(value);
    TrimLeadingSpace(value);
    hide Trim, SplitColon;
    assert ([line] + rest)[1..] == rest;
  }

  lemma {:induction false} LinesRead(pairs: seq<(string, string)>, rest: seq<string>)
    requires forall p :: p in pairs ==> GoodPair(p)
    ensures ResponsePairs(PairLines(pairs) + rest) == pairs + ResponsePairs(rest)
    ensures NoBreaks(PairLines(pairs))
  {
    if pairs == [] {
      assert PairLines(pairs) + rest == rest;
    } else {
      assert pairs[0] in pairs && forall p :: p in pairs[1..] ==> p in pairs;
      var line, more := pairs[0].0 + ": " + pairs[0].1, PairLines(pairs[1..]);
      assert PairLines(pairs) == [line] + more;
      LinesRead(pairs[1..], rest);
      hide *;
      LineRead(pairs[0], more + rest);
      Regroup([line], more, rest);
      PairsRegroup(pairs, ResponsePairs(rest));
      FirstUnbroken(line, more);
    }
  }

  lemma Regroup(a: seq<string>, b: seq<string>, c: seq<string>)
    ensures a + b + c == a + (b + c)
  {
  }

  lemma PairsRegroup(pairs: seq<(string, string)>, rest: seq<(string, string)>)
    requires pairs != []
    ensures [pairs[0]] + (pairs[1..] + rest) == pairs + rest
  {
  }

  lemma FirstUnbroken(line: string, more: seq<string>)
    requires '\n' !in line && NoBreaks(more)
    ensures NoBreaks([line] + more)
  {
  }

  lemma HeadRead(cseq: nat, rest: seq<string>)
    ensures ResponsePairs(["RTSP/1.0 200 OK", CSeqLine(cseq)] + rest) == ResponsePairs(rest)
    ensures NoBreaks(["RTSP/1.0 200 OK", CSeqLine(cseq)])
  {
    var line := CSeqLine(cseq);
    assert ':' !in "RTSP/1.0 200 OK";
    assert ["RTSP/1.0 200 OK", line] + rest == ["RTSP/1.0 200 OK"] + ([line] + rest);
    assert (["RTSP/1.0 200 OK"] + ([line] + rest))[1..] == [line] + rest && ([line] + rest)[1..] == rest;
    assert line == "CSeq" + [':'] + (" " + Digits(cseq, 10));
    IndexOfIs("CSeq", ':', " " + Digits(cseq, 10));
    assert SplitColon(line).0 == "CSeq";
    TrimIdentity("CSeq");
    CSeqBreaks(cseq);
  }

  /** The client reads the whole reply as the pairs of the answer. */
  lemma ReplyRead(cseq: nat, pairs: seq<(string, string)>)
    requires forall p :: p in pairs ==> GoodPair(p)
    ensures ResponsePairs(Lines(Reply(cseq, CrLf(PairLines(pairs))))) == pairs
  {
    var head, lines := ["RTSP/1.0 200 OK", CSeqLine(cseq)], PairLines(pairs);
    LinesRead(pairs, [""]);
    HeadRead(cseq, lines + [""]);
    OneBlankLine();
    NothingRead();
    hide Lines, CrLf, NoBreaks, ResponsePairs, PairLines, CSeqLine, GoodPair;
    CrLfLines(lines, "\r\n");
    CrLfLines(head, CrLf(lines) + "\r\n");
    assert pairs + [] == pairs;
  }

  lemma NothingRead()
    ensures ResponsePairs([""]) == []
  {
    assert [""][1..] == [];
  }

  /** The map of pairs in which every name has one value. */
  lemma {:induction false} CollectedValues(pairs: seq<(string, string)>, value: string -> string)
    requires forall p :: p in pairs ==> p.1 == value(p.0)
    ensures forall n :: n in Collect(pairs) <==> (n, value(n)) in pairs
    ensures forall n :: n in Collect(pairs) ==> Collect(pairs)[n] == value(n)
  {
    if pairs != [] {
      var front, last := pairs[..|pairs| - 1], pairs[|pairs| - 1];
      assert pairs == front + [last] && last in pairs && forall p :: p in front ==> p in pairs;
      CollectedValues(front, value);
    }
  }

  /**
   Main result: a query of known names, answered by one end and read by the other, gives exactly the names that have a
   stored or a default value, each with that value.
   */
  lemma CapabilitiesArrive(capabilities: map<Capability, string>, names: seq<string>, cseq: nat)
    requires (forall n :: n in names ==> Known(n)) && forall c :: c in capabilities ==> IsValue(capabilities[c])
    ensures ParameterAnswer(capabilities, names).Success?
    ensures var read := Collect(ResponsePairs(Lines(Reply(cseq, ParameterAnswer(capabilities, names).value))));
            && (forall n :: n in read <==> n in names && Answered(capabilities, n).Some?)
            && (forall n :: n in read ==> Answered(capabilities, n) == Some(read[n]))
  {
    AnsweredByName(capabilities, names);
    hide CapabilityOf, DefaultValue, ParameterAnswer, AnswerTexts, AnswerPairs, Collect, ResponsePairs, Lines, Reply, IsValue;
    TextsAreLines(capabilities, names);
    PairsAre(capabilities, names);
    var pairs := AnswerPairs(capabilities, names);
    ReplyRead(cseq, pairs);
    var value := (n: string) => if Known(n) && Answered(capabilities, n).Some? then Answered(capabilities, n).value else "";
    CollectedValues(pairs, value);
    forall n | n in Collect(pairs) ensures n in names && Answered(capabilities, n) == Some(Collect(pairs)[n]) {
      assert (n, value(n)) in pairs;
    }
  }
}
