/**
 What a chain that the comparison accepts can let in, whatever rules it was printed with.
 */
module AcceptedChains {
  import opened Wrappers
  import opened Text
  import opened RuleText
  import opened Firewall

  /** The options of a printed rule stand one space apart. */
  predicate Spaced(line: string) {
    line == Line(RawPairs(line))
  }

  /** The line is a rule that the comparison takes for the given rendered one. */
  predicate TakenFor(line: string, rules: Rules, i: nat)
    requires RuleLines(rules).Success? && i < |RuleLines(rules).value|
  {
    "-A " <= line && NormalizeRule(line) == NormalizeRule(RuleLines(rules).value[i])
  }

  // ---------- What admits a packet is made of known options ----------

  lemma KnownFlag(flag: string, value: string, p: Packet)
    requires Satisfies(flag, value, p)
    ensures flag != "" && flag[0] == '-'
    ensures flag == "-m" ==> value == "devgroup" || value == "tcp" || value == "udp"
  {
    hide IpText, Digits;
    FlagsDiffer();
  }

  lemma FlagsDiffer()
    ensures "-m" != "-A" && "-m" != "-i"
  {
    assert "-m"[1] == 'm' && "-A"[1] == 'A' && "-i"[1] == 'i';
  }

  lemma PairIsPrinted(flag: string, value: string, p: Packet)
    requires IsToken(flag) && IsToken(value) && Satisfies(flag, value, p)
    ensures IsPrinted(flag + " " + value)
  {
    KnownFlag(flag, value, p);
    hide Satisfies, IsToken, IsOption;
    if flag == "-m" && value != "devgroup" {
      assert "-m" + " " + "tcp" == TCP_OPTION && "-m" + " " + "udp" == UDP_OPTION;
    } else {
      assert "devgroup"[0] == 'd';
      PairIsOption(flag, value, p);
    }
  }

  lemma MatchedIsPrinted(t: string, p: Packet)
    requires IsPairOrToken(t) && Matches(t, p)
    ensures IsPrinted(t)
  {
    hide Words, Satisfies, IsToken, IsPrinted;
    if IsPair(t) {
      var a, b :| IsToken(a) && IsToken(b) && t == a + " " + b;
      PairMatches(a, b, t, p);
      PairIsPrinted(a, b, p);
    } else {
      TokenWord(t);
      assert false;
    }
  }

  lemma AdmittedIsPrinted(line: string, p: Packet)
    requires Admits(line, p)
    ensures forall t :: t in RawPairs(line) ==> IsPrinted(t)
  {
    PairTextsArePairs(Words(line));
    hide Words, PairTexts, Matches, IsPrinted, IsPairOrToken;
    forall t | t in RawPairs(line) ensures IsPrinted(t) {
      MatchedIsPrinted(t, p);
    }
  }

  lemma FirstIsOption(line: string)
    requires Spaced(line) && "-A " <= line && forall t :: t in RawPairs(line) ==> IsPrinted(t)
    ensures RawPairs(line) != [] && IsOption(RawPairs(line)[0])
  {
    var raw := RawPairs(line);
    ModuleTexts();
    SecondLetter(line);
    hide RawPairs, IsOption;
    NoOptions();
    assert raw[0] in raw;
    PrintedIsPair(raw[0]);
    LineTail(raw);
    LongPair(raw[0]);
    assert TCP_OPTION[1] == 'm' && UDP_OPTION[1] == 'm';
  }

  lemma NoOptions()
    ensures Line([]) == ""
  {
  }

  lemma SecondLetter(line: string)
    requires "-A " <= line
    ensures |line| > 1 && line[1] == 'A'
  {
    assert line[1] == "-A "[1];
  }

  lemma LongPair(t: string)
    requires IsPair(t)
    ensures |t| > 2
  {
    var a, b :| IsToken(a) && IsToken(b) && t == a + " " + b;
    assert |t| == |a| + 1 + |b|;
  }

  // ---------- The rendered lines ----------

  predicate Shaped(options: seq<string>, rules: Rules, dst: Option<Ipv4>, src: Option<Ipv4>, protocol: string,
                   sport: Option<Port>, dport: Port)
  {
    (protocol == "tcp" || protocol == "udp") && options == Options(rules, dst, src, protocol, sport, dport)
  }

  ghost predicate IsRule(options: seq<string>, rules: Rules) {
    exists dst, src, protocol, sport, dport :: Shaped(options, rules, dst, src, protocol, sport, dport)
  }

  lemma RulesAreShaped(rules: Rules)
    requires RuleOptions(rules).Success?
    ensures ValidName(rules.interface.name)
    ensures forall options :: options in RuleOptions(rules).value ==> IsRule(options, rules)
  {
    hide Options;
    var reply := Options(rules, None, None, "udp", Some(67), 68);
    assert Shaped(reply, rules, None, None, "udp", Some(67), 68);
    var request := Options(rules, None, None, "udp", Some(68), 67);
    assert Shaped(request, rules, None, None, "udp", Some(68), 67);
    var control := Options(rules, rules.local, rules.peer, "tcp", None, rules.rtsp);
    assert Shaped(control, rules, rules.local, rules.peer, "tcp", None, rules.rtsp);
    if rules.rtcp.Some? {
      var media := Options(rules, rules.local, rules.peer, "udp", Some(rules.rtcp.value.1), rules.rtcp.value.0);
      assert Shaped(media, rules, rules.local, rules.peer, "udp", Some(rules.rtcp.value.1), rules.rtcp.value.0);
    }
  }

  lemma NamesProtocol(rules: Rules, dst: Option<Ipv4>, src: Option<Ipv4>, protocol: string, sport: Option<Port>, dport: Port)
    ensures "-p " + protocol in Options(rules, dst, src, protocol, sport, dport)
  {
    hide Prefix, Narrow, SourcePort, Digits;
    var front := Prefix(rules.interface.name) + Narrow("-d", dst) + Narrow("-s", src);
    assert (front + ["-p " + protocol])[|front|] == "-p " + protocol;
  }

  /** Every rendered rule admits some packet, and names its protocol. */
  lemma RuleFacts(rules: Rules, i: nat) returns (p: Packet)
    requires RuleLines(rules).Success? && i < |RuleLines(rules).value|
    ensures Admits(RuleLines(rules).value[i], p)
    ensures "-p tcp" in Pairs(RuleLines(rules).value[i]) || "-p udp" in Pairs(RuleLines(rules).value[i])
  {
    var options := RuleOptions(rules).value[i];
    assert options in RuleOptions(rules).value;
    RulesAreShaped(rules);
    LineIsItsOptions(rules, i);
    hide Options, Line, Admits, RuleOptions, ValidName, Pairs, Shaped;
    var dst, src, protocol, sport, dport :| Shaped(options, rules, dst, src, protocol, sport, dport);
    p := SomePacket(options, rules, dst, src, protocol, sport, dport);
  }

  lemma SomePacket(options: seq<string>, rules: Rules, dst: Option<Ipv4>, src: Option<Ipv4>, protocol: string, sport: Option<Port>, dport: Port)
      returns (p: Packet)
    requires ValidName(rules.interface.name) && Shaped(options, rules, dst, src, protocol, sport, dport)
    ensures Admits(Line(options), p) && ("-p tcp" in options || "-p udp" in options)
  {
    NamesProtocol(rules, dst, src, protocol, sport, dport);
    assert protocol == "tcp" ==> "-p " + protocol == "-p tcp";
    assert protocol == "udp" ==> "-p " + protocol == "-p udp";
    hide Options, Line, Admits, ValidName;
    var nowhere := Ipv4(0, 0, 0, 0);
    p := Packet(rules.interface.name, DEVICE_GROUP, if protocol == "tcp" then Tcp else Udp,
                if src.Some? then src.value else nowhere, if dst.Some? then dst.value else nowhere,
                if sport.Some? then sport.value else 0, dport);
    RuleAdmits(rules, dst, src, protocol, sport, dport, p);
  }

  lemma LineIsItsOptions(rules: Rules, i: nat)
    requires RuleLines(rules).Success? && i < |RuleLines(rules).value|
    ensures RuleLines(rules).value[i] == Line(RuleOptions(rules).value[i])
    ensures Pairs(RuleLines(rules).value[i]) == RuleOptions(rules).value[i]
  {
    var options := RuleOptions(rules).value[i];
    RulesAreOptions(rules);
    assert options in RuleOptions(rules).value;
    RulesStart(rules);
    hide IsOption, Line, RuleOptions, Pairs, RawPairs;
    LinePairs(options);
  }

  // ---------- What an accepted line admits ----------

  /** A line that is taken for a rendered one and admits a packet names whole protocol modules, each beside its protocol. */
  lemma AdmittedIsWhole(line: string, rules: Rules, i: nat, p: Packet)
    requires RuleLines(rules).Success? && i < |RuleLines(rules).value|
    requires TakenFor(line, rules, i) && Spaced(line) && Admits(line, p)
    ensures WholeModules(line)
  {
    var raw := RawPairs(line);
    var some := RuleFacts(rules, i);
    LinesArePlain(rules, i);
    hide RuleLines, NormalizeRule, EvenTokens, Pairs, RawPairs, IsPrinted, IsOption, Matches, NonModules, Line, WholeModules;
    AdmittedIsPrinted(line, p);
    FirstIsOption(line);
    PrintedPairs(raw);
    NormalFormDetermines(RuleLines(rules).value[i], line);
    SameMembers(Pairs(RuleLines(rules).value[i]), Pairs(line));
    ProtocolKept(raw);
    ModulesBesideProtocol(line, p);
  }

  lemma SameMembers(a: seq<string>, b: seq<string>)
    requires multiset(a) == multiset(b)
    ensures forall t :: t in a <==> t in b
  {
    assert forall t :: t in a <==> t in multiset(a);
    assert forall t :: t in b <==> t in multiset(b);
  }

  lemma ProtocolKept(raw: seq<string>)
    ensures forall t :: t in NonModules(raw) ==> t in raw
  {
    DropMembers(raw, TCP_OPTION);
    DropMembers(Drop(raw, TCP_OPTION), UDP_OPTION);
  }

  lemma ModulesBesideProtocol(line: string, p: Packet)
    requires Admits(line, p) && Pairs(line) == NonModules(RawPairs(line))
    requires "-p tcp" in RawPairs(line) || "-p udp" in RawPairs(line)
    ensures WholeModules(line)
  {
    hide Matches, Pairs, RawPairs, NonModules;
    ModuleNeedsProtocol(p);
  }

  lemma ModuleNeedsProtocol(p: Packet)
    ensures !(Matches(TCP_OPTION, p) && Matches("-p udp", p)) && !(Matches(UDP_OPTION, p) && Matches("-p tcp", p))
  {
    hide *;
    FixedTokens("-m");
    FixedTokens("-p");
    FixedTokens("tcp");
    FixedTokens("udp");
    ProtocolsDiffer(p);
    SplitTexts();
    PairMatches("-p", "tcp", "-p tcp", p);
    PairMatches("-p", "udp", "-p udp", p);
    PairMatches("-m", "tcp", TCP_OPTION, p);
    PairMatches("-m", "udp", UDP_OPTION, p);
  }

  lemma SplitTexts()
    ensures "-p" + " " + "tcp" == "-p tcp" && "-p" + " " + "udp" == "-p udp"
    ensures "-m" + " " + "tcp" == TCP_OPTION && "-m" + " " + "udp" == UDP_OPTION
  {
  }

  lemma ProtocolsDiffer(p: Packet)
    ensures !(Satisfies("-m", "tcp", p) && Satisfies("-p", "udp", p)) && !(Satisfies("-m", "udp", p) && Satisfies("-p", "tcp", p))
  {
    hide IpText, Digits;
    assert "tcp"[0] != "udp"[0] && "-p"[1] == 'p' && "-m"[1] == 'm' && "devgroup"[0] == 'd';
  }

  /**
   Main result, rule by rule: an accepted rule never admits more than the rendered one, and admits the same exactly
   when what cleaning removes from it is whole modules, each beside its protocol.
   */
  lemma AcceptedRule(line: string, rules: Rules, i: nat)
    requires RuleLines(rules).Success? && i < |RuleLines(rules).value|
    requires TakenFor(line, rules, i) && Spaced(line)
    ensures forall p :: Admits(line, p) ==> Admits(RuleLines(rules).value[i], p)
    ensures (forall p :: Admits(line, p) <==> Admits(RuleLines(rules).value[i], p)) <==> WholeModules(line)
  {
    var rendered := RuleLines(rules).value[i];
    var some := RuleFacts(rules, i);
    LinesArePlain(rules, i);
    hide RuleLines, NormalizeRule, EvenTokens, Pairs, RawPairs, Matches, WholeModules, Admits, Spaced;
    forall p | Admits(line, p) ensures Admits(rendered, p) && WholeModules(line) {
      AdmittedIsWhole(line, rules, i, p);
      SameNormalForm(rendered, line, p);
    }
    if WholeModules(line) {
      forall p ensures Admits(line, p) <==> Admits(rendered, p) {
        SameNormalForm(rendered, line, p);
      }
    } else {
      assert !Admits(line, some);
    }
  }

  /** Main result: an accepted chain never admits more than the session's rules describe, whoever wrote its rules. */
  lemma AcceptedAdmitsNoMore(printed: seq<string>, rules: Rules, p: Packet)
    requires RuleLines(rules).Success? && NormalRules(printed) == Normalized(RuleLines(rules).value)
    requires forall line :: line in RulesOf(printed) ==> Spaced(line)
    ensures ChainAdmits(RulesOf(printed), p) ==> Described(rules, p)
  {
    var actual, expected := RulesOf(printed), RuleLines(rules).value;
    NormalRulesOf(printed);
    LinesAdmit(rules, p);
    assert |actual| == |Normalized(actual)| == |expected|;
    RulesAreRules(printed);
    hide Admits, RuleLines, NormalRules, RulesOf, Described, Spaced, NormalizeRule;
    if ChainAdmits(actual, p) {
      var i :| 0 <= i < |actual| && Admits(actual[i], p);
      assert actual[i] in actual;
      assert Normalized(actual)[i] == Normalized(expected)[i];
      AcceptedRule(actual[i], rules, i);
    }
  }

  lemma {:induction false} RulesAreRules(lines: seq<string>)
    ensures forall line :: line in RulesOf(lines) ==> "-A " <= line
  {
    if lines != [] {
      RulesAreRules(lines[1..]);
    }
  }

  // ---------- An accepted rule that admits nothing ----------

  lemma {:induction false} RemoveShrinks(s: string, pat: string)
    requires pat != ""
    ensures |RemoveAll(s, pat)| <= |s| && (Contains(s, pat) ==> |RemoveAll(s, pat)| < |s|)
    decreases |s|
  {
    if Contains(s, pat) {
      var k := Find(s, pat).value;
      Within(s, pat, k);
      RemoveShrinks(s[k + |pat|..], pat);
    }
  }

  /** A line of our own options contains no protocol module. */
  lemma NoModuleInLine(options: seq<string>)
    requires options != [] && forall t :: t in options ==> IsOption(t)
    ensures !Contains(Line(options), TCP_MODULE) && !Contains(Line(options), UDP_MODULE)
  {
    var line := Line(options);
    assert options[0] in options;
    LinePairs(options);
    CleanLine(options);
    hide Line, RemoveAll, Contains, IsOption, NonModules;
    RemoveShrinks(line, TCP_MODULE);
    RemoveShrinks(RemoveAll(line, TCP_MODULE), UDP_MODULE);
    if !Contains(line, TCP_MODULE) {
      RemoveNothing(line, TCP_MODULE);
    }
  }

  lemma {:induction false} TailAppend(a: seq<string>, b: seq<string>)
    ensures Tail(a + b) == Tail(a) + Tail(b)
  {
    if a == [] {
      assert a + b == b;
    } else {
      assert (a + b)[0] == a[0] && (a + b)[1..] == a[1..] + b;
      TailAppend(a[1..], b);
    }
  }

  lemma LineAppend(a: seq<string>, b: seq<string>)
    requires a != []
    ensures Line(a + b) == Line(a) + Tail(b)
  {
    hide Line, Tail;
    LineTail(a);
    LineTail(a + b);
    assert (a + b)[0] == a[0] && (a + b)[1..] == a[1..] + b;
    TailAppend(a[1..], b);
  }

  const TORN := ["-p u", "-m udpdp"]

  lemma TailOfTwo(x: string, y: string, rest: seq<string>)
    ensures Tail([x] + rest) == " " + x + Tail(rest)
    ensures Tail([x, y] + rest) == (" " + x) + ((" " + y) + Tail(rest))
  {
    assert ([x] + rest)[1..] == rest;
    assert ([x, y] + rest)[1..] == [y] + rest && ([y] + rest)[1..] == rest;
  }

  lemma TornTexts(front: string, back: string)
    ensures front + ((" " + "-p u") + ((" " + "-m udpdp") + back)) == (front + " -p u") + UDP_MODULE + ("dp" + back)
    ensures front + (" " + "-p udp" + back) == (front + " -p u") + ("dp" + back)
  {
    assert " " + "-m udpdp" == UDP_MODULE + "dp";
    assert " " + "-p udp" == " -p u" + "dp";
  }

  /** A module name put inside the word `udp` leaves a rule that is compared as the whole one. */
  lemma TornIsAccepted(front: seq<string>, back: seq<string>)
    requires front != [] && forall t :: t in front + (["-p udp"] + back) ==> IsOption(t)
    ensures NormalizeRule(Line(front + (TORN + back))) == NormalizeRule(Line(front + (["-p udp"] + back)))
  {
    hide *;
    NoModuleInLine(front + (["-p udp"] + back));
    LineAppend(front, TORN + back);
    LineAppend(front, ["-p udp"] + back);
    TornIs();
    TailOfTwo("-p u", "-m udpdp", back);
    TailOfTwo("-p udp", "", back);
    TornTexts(Line(front), Tail(back));
    ProtocolModuleIgnored(Line(front) + " -p u", "dp" + Tail(back), UDP_MODULE);
  }

  lemma TornIs()
    ensures TORN == ["-p u", "-m udpdp"]
  {
  }

  lemma TornPairs()
    ensures IsToken("-p") && IsToken("u") && IsToken("-m") && IsToken("udpdp")
    ensures "-p" + " " + "u" == "-p u" && "-m" + " " + "udpdp" == "-m udpdp"
    ensures IsPair("-p u") && IsPair("-m udpdp")
  {
    assert IsToken("-p") && IsToken("u") && IsToken("-m") && IsToken("udpdp");
    assert "-p" + " " + "u" == "-p u" && "-m" + " " + "udpdp" == "-m udpdp";
  }

  lemma TornFails(p: Packet)
    ensures !Matches("-p u", p)
  {
    TornPairs();
    NotAProtocol(p);
    hide *;
    PairMatches("-p", "u", "-p u", p);
  }

  lemma NotAProtocol(p: Packet)
    ensures !Satisfies("-p", "u", p)
  {
    hide IpText, Digits;
    assert |"-p"| == 2 && "-p"[1] == 'p' && "-A"[1] == 'A' && "-i"[1] == 'i' && "-m"[1] == 'm' && "-d"[1] == 'd' && "-s"[1] == 's' && "-j"[1] == 'j';
    assert |"u"| == 1 && |"udp"| == 3 && |"tcp"| == 3;
  }

  lemma TornLine(front: seq<string>, back: seq<string>, p: Packet)
    requires front != [] && forall t :: t in front + (["-p udp"] + back) ==> IsOption(t)
    ensures var line := Line(front + (TORN + back)); Spaced(line) && !Admits(line, p)
  {
    var torn := front + (TORN + back);
    TornPairs();
    TornFails(p);
    forall t | t in torn ensures IsPair(t) {
      if t !in TORN {
        assert t in front + (["-p udp"] + back);
      }
    }
    assert torn[|front|] == "-p u";
    hide IsPair, IsOption, Line, Matches, RawPairs;
    RawOfLine(torn);
  }

  /** The DHCP rule of any session, torn so: it is taken for the rendered one, and admits nothing. */
  lemma TornRuleAdmitsNothing(rules: Rules, p: Packet)
    requires RuleLines(rules).Success?
    ensures var line := Line(Prefix(rules.interface.name) + (TORN + ["--sport " + Digits(67, 10), "--dport " + Digits(68, 10), "-j ACCEPT"]));
            TakenFor(line, rules, 0) && Spaced(line) && !Admits(line, p)
  {
    var front, back := Prefix(rules.interface.name), ["--sport " + Digits(67, 10), "--dport " + Digits(68, 10), "-j ACCEPT"];
    var options := front + (["-p udp"] + back);
    FirstRule(rules);
    RulesAreOptions(rules);
    assert options in RuleOptions(rules).value;
    LineIsItsOptions(rules, 0);
    assert Starts(front + (TORN + back));
    hide RuleOptions, RuleLines, Line, IsOption, Admits, Spaced, NormalizeRule, Prefix, Starts, TORN, Digits;
    LineStarts(front + (TORN + back));
    TornIsAccepted(front, back);
    TornLine(front, back, p);
  }

  lemma FirstRule(rules: Rules)
    requires RuleOptions(rules).Success?
    ensures RuleOptions(rules).value != []
    ensures RuleOptions(rules).value[0] == Prefix(rules.interface.name)
                                           + (["-p udp"] + ["--sport " + Digits(67, 10), "--dport " + Digits(68, 10), "-j ACCEPT"])
  {
    hide Prefix, Digits;
    var front := Prefix(rules.interface.name);
    var reply := Options(rules, None, None, "udp", Some(67), 68);
    assert RuleOptions(rules).value[0] == reply;
    assert "-p " + "udp" == "-p udp";
    assert reply == front + [] + [] + ["-p udp"] + ["--sport " + Digits(67, 10)] + ["--dport " + Digits(68, 10)] + ["-j ACCEPT"];
  }
}
