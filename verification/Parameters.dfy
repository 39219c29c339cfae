/**
 What the sink reads and writes with GET_PARAMETER and SET_PARAMETER: what is set is what is answered later.
 */
module Parameters {
  import opened Wrappers
  import opened Text
  import opened RtspMessages
  import opened RtspSessions

  // ---------- The names ----------

  /** The names that can be queried and set: eight, and four of them also in another spelling. */
  lemma KnownNames(name: string)
    ensures Known(name) <==> name in {
              "wfd_client_rtp_ports", "wfd_client_rtp_port", "wfd_video_formats", "wfd_video_format", "wfd_audio_codecs",
              "wfd_audio_codec", "wfd_display_edid", "wfd_coupled_sink", "wfd_uibc_capability", "wfd_uibc_capabilit",
              "wfd_standby_resume_capability", "wfd_content_protection"}
  {
  }

  /** Two names stand for the same capability only when one is the other without its last letter. */
  lemma Spellings(a: string, b: string)
    requires Known(a) && Known(b) && a != b && CapabilityOf(a) == CapabilityOf(b)
    ensures (a <= b && |b| == |a| + 1) || (b <= a && |a| == |b| + 1)
  {
    Longer();
  }

  lemma Longer()
    ensures "wfd_client_rtp_port" + "s" == "wfd_client_rtp_ports" && "wfd_video_format" + "s" == "wfd_video_formats"
    ensures "wfd_audio_codec" + "s" == "wfd_audio_codecs" && "wfd_uibc_capabilit" + "y" == "wfd_uibc_capability"
  {
  }

  /** The second spellings have no default; what is not offered is answered with none. */
  lemma Defaults(name: string)
    ensures DefaultValue(name).Some?
       <==> Known(name) && name !in {"wfd_client_rtp_port", "wfd_video_format", "wfd_audio_codec", "wfd_uibc_capabilit"}
    ensures name in {"wfd_uibc_capability", "wfd_standby_resume_capability", "wfd_content_protection", "wfd_coupled_sink"}
            ==> DefaultValue(name) == Some("none")
    ensures DefaultValue("wfd_audio_codecs") == Some("AAC 00000001 00") && DefaultValue("wfd_client_rtp_ports") == Some("RTP/UDP")
    ensures DefaultValue("wfd_display_edid") == Some("")
  {
  }

  predicate Known(name: string) {
    CapabilityOf(name).Some?
  }

  /** The texts of the answers to these names, one after the other. */
  function AnswerTexts(capabilities: map<Capability, string>, names: seq<string>): string
    requires forall n :: n in names ==> Known(n)
  {
    if names == [] then ""
    else
      assert forall n :: n in names[1..] ==> n in names;
      NameText(capabilities, names[0]) + AnswerTexts(capabilities, names[1..])
  }

  /** One name: its stored value, or else its default, or else nothing. */
  function NameText(capabilities: map<Capability, string>, name: string): string
    requires Known(name)
  {
    match (Stored(capabilities, name), DefaultValue(name))
    case (Some(value), _) => name + ": " + value + "\r\n"
    case (None, Some(value)) => name + ": " + value + "\r\n"
    case (None, None) => ""
  }

  function Stored(capabilities: map<Capability, string>, name: string): Option<string>
    requires Known(name)
  {
    if CapabilityOf(name).value in capabilities then Some(capabilities[CapabilityOf(name).value]) else None
  }

  /** The answer to the first name, and the rest of the answer. */
  lemma AnswerFirst(capabilities: map<Capability, string>, names: seq<string>)
    requires names != []
    ensures ParameterAnswer(capabilities, names)
         == if !Known(names[0]) then Failure(InvalidParameter(names[0]))
            else match ParameterAnswer(capabilities, names[1..])
              case Success(rest) => Success(NameText(capabilities, names[0]) + rest)
              case Failure(error) => Failure(error)
  {
    hide CapabilityOf, DefaultValue;
    assert forall text: string :: "" + text == text;
  }

  lemma {:induction false} AllAnswered(capabilities: map<Capability, string>, names: seq<string>)
    requires forall n :: n in names ==> Known(n)
    ensures ParameterAnswer(capabilities, names) == Success(AnswerTexts(capabilities, names))
  {
    if names != [] {
      assert names[0] in names && forall n :: n in names[1..] ==> n in names;
      AnswerFirst(capabilities, names);
      hide ParameterAnswer, Known, NameText;
      AllAnswered(capabilities, names[1..]);
    }
  }

  lemma {:induction false} FirstUnknownFails(capabilities: map<Capability, string>, names: seq<string>, k: nat)
    requires k < |names| && !Known(names[k]) && forall j: nat :: j < k ==> Known(names[j])
    ensures ParameterAnswer(capabilities, names) == Failure(InvalidParameter(names[k]))
    decreases k
  {
    AnswerFirst(capabilities, names);
    hide ParameterAnswer, Known, NameText;
    if k > 0 {
      assert forall j: nat :: j < k - 1 ==> names[1..][j] == names[j + 1];
      FirstUnknownFails(capabilities, names[1..], k - 1);
    }
  }

  /**
   Main result: a query succeeds exactly when all its names are known, and is then answered name by name, in order, a
   stored value winning over the default; otherwise it fails on the first unknown name.
   */
  lemma AnsweredByName(capabilities: map<Capability, string>, names: seq<string>)
    ensures (forall n :: n in names ==> Known(n)) ==>
              ParameterAnswer(capabilities, names) == Success(AnswerTexts(capabilities, names))
    ensures forall k: nat :: k < |names| && !Known(names[k]) && (forall j: nat :: j < k ==> Known(names[j])) ==>
              ParameterAnswer(capabilities, names) == Failure(InvalidParameter(names[k]))
  {
    hide ParameterAnswer, Known, AnswerTexts;
    if forall n :: n in names ==> Known(n) {
      AllAnswered(capabilities, names);
    }
    forall k: nat | k < |names| && !Known(names[k]) && (forall j: nat :: j < k ==> Known(names[j]))
      ensures ParameterAnswer(capabilities, names) == Failure(InvalidParameter(names[k]))
    {
      FirstUnknownFails(capabilities, names, k);
    }
  }

  // ---------- Reading back ----------

  /** The assignment of a capability that counts: the last one that names it. */
  function LastValue(pairs: seq<(string, string)>, capability: Capability): Option<string>
    decreases |pairs|
  {
    if pairs == [] then None
    else
      var last := pairs[|pairs| - 1];
      if CapabilityOf(last.0) == Some(capability) then Some(last.1) else LastValue(pairs[..|pairs| - 1], capability)
  }

  predicate Settable(name: string) {
    Known(name) || name == "wfd_idr_request"
  }

  /** One assignment: a known name sets its capability, an IDR request is only remembered, anything else is refused. */
  lemma StoreOneExactly(s: Session, name: string, value: string)
    ensures var (after, error) := Store(s, [(name, value)]);
            && (error.None? <==> Settable(name))
            && (error.Some? ==> error == Some(InvalidParameter(name)) && after == s)
            && (after.id, after.state, after.rtpPort) == (s.id, s.state, s.rtpPort)
            && (error.None? ==> after.parameters == s.parameters[name := value])
            && after.capabilities == match CapabilityOf(name)
                                     case Some(capability) => s.capabilities[capability := value]
                                     case None => s.capabilities
  {
    hide CapabilityOf;
    StoreOne(s, name, value);
  }

  /**
   Main result: after a SET_PARAMETER that succeeded, every capability has the value last assigned to it under any of its
   names, or its old value when none was; it succeeded exactly because every name can be set.
   */
  lemma {:induction false} SetIsStored(s: Session, pairs: seq<(string, string)>)
    ensures Store(s, pairs).1.None? <==> forall p :: p in pairs ==> Settable(p.0)
    ensures Store(s, pairs).1.None? ==>
              forall c: Capability :: var after := Store(s, pairs).0.capabilities;
                match LastValue(pairs, c)
                case Some(value) => c in after && after[c] == value
                case None => (c in after <==> c in s.capabilities) && (c in after ==> after[c] == s.capabilities[c])
    decreases |pairs|
  {
    if pairs != [] {
      var front, p := pairs[..|pairs| - 1], pairs[|pairs| - 1];
      assert pairs == front + [p];
      SetIsStored(s, front);
      StoreOneExactly(Store(s, front).0, p.0, p.1);
      hide Store, CapabilityOf, Settable;
      if Store(s, front).1.None? {
        StoreNext(s, front, p);
      } else {
        StoreStuck(s, front, p);
        assert forall q :: q in front ==> q in pairs;
      }
    }
  }

  lemma {:induction false} StoreStuck(s: Session, pairs: seq<(string, string)>, p: (string, string))
    requires Store(s, pairs).1.Some?
    ensures Store(s, pairs + [p]) == Store(s, pairs)
    decreases |pairs|
  {
    hide CapabilityOf;
    if pairs != [] {
      var rest := pairs[1..];
      assert (pairs + [p])[0] == pairs[0] && (pairs + [p])[1..] == rest + [p];
      var (name, value) := pairs[0];
      match CapabilityOf(name)
      case Some(capability) =>
        StoreStuck(s.(capabilities := s.capabilities[capability := value], parameters := s.parameters[name := value]), rest, p);
      case None =>
        if name == IDR_REQUEST {
          StoreStuck(s.(parameters := s.parameters[name := value]), rest, p);
        }
    }
  }

  /** Main result: what is set under one spelling of a name is answered to a query of any of its spellings. */
  lemma SetThenGet(s: Session, pairs: seq<(string, string)>, name: string)
    requires Store(s, pairs).1.None? && Known(name) && LastValue(pairs, CapabilityOf(name).value).Some?
    ensures ParameterAnswer(Store(s, pairs).0.capabilities, [name])
         == Success(name + ": " + LastValue(pairs, CapabilityOf(name).value).value + "\r\n")
  {
    SetIsStored(s, pairs);
    var after := Store(s, pairs).0.capabilities;
    hide CapabilityOf, DefaultValue, Store, LastValue, ParameterAnswer;
    AnsweredByName(after, [name]);
    assert [name][1..] == [] && forall text: string :: text + "" == text;
  }
}
