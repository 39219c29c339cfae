/**
 The temporary firewall rules of one casting session: which lines are rendered, which packets those
 lines admit, and what it is worth when the live chain compares equal to them.
 */
module Firewall {
  import opened Wrappers
  import opened Text
  import opened RuleText

  // ---------- Addresses ----------

  type Octet = n: nat | n < 256
  type Port = n: nat | n < 0x1_0000

  datatype Ipv4 = Ipv4(a: Octet, b: Octet, c: Octet, d: Octet)

  function OctetTexts(ip: Ipv4): seq<string> {
    [Digits(ip.a, 10), Digits(ip.b, 10), Digits(ip.c, 10), Digits(ip.d, 10)]
  }

  function IpText(ip: Ipv4): string {
    Join(OctetTexts(ip), ['.'])
  }

  /** One to three decimal digits without a leading zero. */
  function ParseOctet(s: string): Option<Octet> {
    if 1 <= |s| <= 3 && (forall c :: c in s ==> '0' <= c <= '9') && (|s| == 1 || s[0] != '0') then
      match Value(s, 10)
      case Some(v) => if v < 256 then Some(v) else None
      case None => None
    else None
  }

  /** `Ipv4Addr::from_str`. */
  function ParseIp(s: string): Option<Ipv4> {
    var parts := SplitOn(s, '.');
    if |parts| != 4 then None
    else
      match (ParseOctet(parts[0]), ParseOctet(parts[1]), ParseOctet(parts[2]), ParseOctet(parts[3]))
      case (Some(a), Some(b), Some(c), Some(d)) => Some(Ipv4(a, b, c, d))
      case _ => None
  }

  lemma OctetRoundTrip(n: Octet)
    ensures ParseOctet(Digits(n, 10)) == Some(n)
  {
    ValueOfDigits(n, 10);
    DigitsShape(n);
  }

  lemma DigitsShape(n: Octet)
    ensures 1 <= |Digits(n, 10)| <= 3 && (|Digits(n, 10)| == 1 || Digits(n, 10)[0] != '0')
  {
    var tens := n / 10;
    if n >= 10 {
      assert Digits(n, 10) == Digits(tens, 10) + [DIGITS[n % 10]];
      if tens >= 10 {
        assert Digits(tens, 10) == Digits(tens / 10, 10) + [DIGITS[tens % 10]];
      }
    }
  }

  /** Printed addresses are parsed back; in particular different addresses print differently. */
  lemma IpRoundTrip(ip: Ipv4)
    ensures ParseIp(IpText(ip)) == Some(ip)
  {
    var parts := OctetTexts(ip);
    assert forall part :: part in parts ==> '.' !in part;
    SplitJoin(parts, '.');
    OctetRoundTrip(ip.a);
    OctetRoundTrip(ip.b);
    OctetRoundTrip(ip.c);
    OctetRoundTrip(ip.d);
  }

  lemma IpIsToken(ip: Ipv4)
    ensures IsToken(IpText(ip) + "/32")
  {
    var parts := OctetTexts(ip);
    assert forall part, c :: part in parts && c in part ==> '0' <= c <= '9';
    JoinChars(parts);
  }

  lemma {:induction false} JoinChars(parts: seq<string>)
    requires forall part, c :: part in parts && c in part ==> '0' <= c <= '9'
    ensures forall c :: c in Join(parts, ['.']) ==> '0' <= c <= '9' || c == '.'
  {
    if |parts| > 0 {
      assert parts[0] in parts;
      assert forall part :: part in parts[1..] ==> part in parts;
      JoinChars(parts[1..]);
    }
  }

  // ---------- Rules ----------

  const CHAIN := "waycast-input"
  const DEVICE_GROUP: nat := 0x574644
  const GROUP_TEXT := "0x574644"

  datatype GroupInterface = GroupInterface(name: string, index: nat, phy: string)

  datatype Rules = Rules(interface: GroupInterface, groupOwner: bool, rtsp: Port, local: Option<Ipv4>,
                         peer: Option<Ipv4>, rtcp: Option<(Port, Port)>)

  datatype FirewallError = InvalidName | PrivilegedPort | UnvalidatedRtcp

  predicate NameChar(c: char) {
    'a' <= c <= 'z' || 'A' <= c <= 'Z' || '0' <= c <= '9' || c == '_' || c == '-'
  }

  predicate ValidName(name: string) {
    1 <= |name| <= 15 && forall c :: c in name ==> NameChar(c)
  }

  function Prefix(name: string): seq<string> {
    ["-A " + CHAIN, "-i " + name, "-m devgroup", "--src-group " + GROUP_TEXT]
  }

  function Narrow(flag: string, ip: Option<Ipv4>): seq<string> {
    match ip
    case None => []
    case Some(ip) => [flag + " " + (IpText(ip) + "/32")]
  }

  function SourcePort(port: Option<Port>): seq<string> {
    match port
    case None => []
    case Some(port) => ["--sport " + Digits(port, 10)]
  }

  /** The options of one rule, in the order in which they are written. */
  function Options(rules: Rules, dst: Option<Ipv4>, src: Option<Ipv4>, protocol: string, sport: Option<Port>, dport: Port)
    : seq<string>
  {
    Prefix(rules.interface.name) + Narrow("-d", dst) + Narrow("-s", src) + ["-p " + protocol] + SourcePort(sport)
    + ["--dport " + Digits(dport, 10)] + ["-j ACCEPT"]
  }

  function Line(options: seq<string>): string {
    Join(options, " ")
  }

  /** The options of every rule of the session, or why the rules are refused. */
  function RuleOptions(rules: Rules): Result<seq<seq<string>>, FirewallError> {
    if !ValidName(rules.interface.name) then Failure(InvalidName)
    else if rules.rtsp < 1024 then Failure(PrivilegedPort)
    else if rules.rtcp.Some? && (rules.local.None? || rules.peer.None? || rules.rtcp.value.0 < 1024 || rules.rtcp.value.1 == 0) then
      Failure(UnvalidatedRtcp)
    else Success(
      [Options(rules, None, None, "udp", Some(67), 68)]
      + (if rules.groupOwner then [Options(rules, None, None, "udp", Some(68), 67)] else [])
      + [Options(rules, rules.local, rules.peer, "tcp", None, rules.rtsp)]
      + match rules.rtcp
        case None => []
        case Some(ports) => [Options(rules, rules.local, rules.peer, "udp", Some(ports.1), ports.0)])
  }

  function LineTexts(options: seq<seq<string>>): (lines: seq<string>)
    ensures |lines| == |options| && forall i :: 0 <= i < |lines| ==> lines[i] == Line(options[i])
  {
    if options == [] then [] else [Line(options[0])] + LineTexts(options[1..])
  }

  lemma {:induction false} LinesOfSum(a: seq<seq<string>>, b: seq<seq<string>>)
    ensures LineTexts(a + b) == LineTexts(a) + LineTexts(b)
  {
    if a == [] {
      assert a + b == b;
    } else {
      assert (a + b)[1..] == a[1..] + b;
      LinesOfSum(a[1..], b);
    }
  }

  function RuleLines(rules: Rules): Result<seq<string>, FirewallError> {
    match RuleOptions(rules)
    case Success(options) => Success(LineTexts(options))
    case Failure(error) => Failure(error)
  }

  /** Renders the rules line by line. */
  method Render(rules: Rules) returns (r: Result<seq<string>, FirewallError>)
    ensures r == RuleLines(rules)
  {
    hide Options, Line, ValidName;
    if !ValidName(rules.interface.name) {
      return Failure(InvalidName);
    }
    if rules.rtsp < 1024 {
      return Failure(PrivilegedPort);
    }
    ghost var options := [Options(rules, None, None, "udp", Some(67), 68)];
    var lines := [Line(Options(rules, None, None, "udp", Some(67), 68))];
    if rules.groupOwner {
      options := options + [Options(rules, None, None, "udp", Some(68), 67)];
      lines := lines + [Line(Options(rules, None, None, "udp", Some(68), 67))];
    } else {
      assert options + [] == options;
    }
    options := options + [Options(rules, rules.local, rules.peer, "tcp", None, rules.rtsp)];
    lines := lines + [Line(Options(rules, rules.local, rules.peer, "tcp", None, rules.rtsp))];
    if rules.rtcp.Some? {
      var ports := rules.rtcp.value;
      if rules.local.None? || rules.peer.None? || ports.0 < 1024 || ports.1 == 0 {
        return Failure(UnvalidatedRtcp);
      }
      options := options + [Options(rules, rules.local, rules.peer, "udp", Some(ports.1), ports.0)];
      lines := lines + [Line(Options(rules, rules.local, rules.peer, "udp", Some(ports.1), ports.0))];
    } else {
      assert options + [] == options;
    }
    assert RuleOptions(rules) == Success(options);
    assert lines == LineTexts(options);
    return Success(lines);
  }

  // ---------- What a line admits ----------

  datatype Protocol = Tcp | Udp | Other

  datatype Packet = Packet(interface: string, group: nat, protocol: Protocol, src: Ipv4, dst: Ipv4, sport: Port, dport: Port)

  /** The number of a device group that is printed in hexadecimal. */
  function DenotedGroup(value: string): Option<nat> {
    if |value| > 2 && value[..2] == "0x" then ParseUnsigned(value[2..], 16, MAX_U32) else None
  }

  /** Whether a packet satisfies one option; options outside the dialect of the rules admit nothing. */
  predicate Satisfies(flag: string, value: string, p: Packet) {
    if flag == "-A" then value == CHAIN
    else if flag == "-i" then value == p.interface
    else if flag == "-m" then value == "devgroup" || (value == "tcp" && p.protocol.Tcp?) || (value == "udp" && p.protocol.Udp?)
    else if flag == "--src-group" then DenotedGroup(value) == Some(p.group)
    else if flag == "-d" then value == IpText(p.dst) + "/32"
    else if flag == "-s" then value == IpText(p.src) + "/32"
    else if flag == "-p" then (value == "tcp" && p.protocol.Tcp?) || (value == "udp" && p.protocol.Udp?)
    else if flag == "--sport" then value == Digits(p.sport, 10)
    else if flag == "--dport" then value == Digits(p.dport, 10)
    else flag == "-j" && value == "ACCEPT"
  }

  predicate Matches(option: string, p: Packet) {
    var words := Words(option);
    |words| == 2 && Satisfies(words[0], words[1], p)
  }

  predicate All(options: seq<string>, p: Packet) {
    forall option :: option in options ==> Matches(option, p)
  }

  /** The options of a rule as it is printed, nothing removed. */
  function RawPairs(line: string): seq<string> {
    PairTexts(Words(line))
  }

  /** A printed rule admits a packet that satisfies all its options, whatever their order. */
  predicate Admits(line: string, p: Packet) {
    All(RawPairs(line), p)
  }

  predicate ChainAdmits(lines: seq<string>, p: Packet) {
    exists i :: 0 <= i < |lines| && Admits(lines[i], p)
  }

  /** The packets a session's rules are meant to let in; the DHCP ports are those of section 4.1 of RFC 2131. */
  predicate Described(rules: Rules, p: Packet) {
    && p.interface == rules.interface.name
    && p.group == DEVICE_GROUP
    && (|| (p.protocol.Udp? && p.sport == 67 && p.dport == 68)
        || (rules.groupOwner && p.protocol.Udp? && p.sport == 68 && p.dport == 67)
        || (p.protocol.Tcp? && p.dport == rules.rtsp && Narrowed(rules, p))
        || (rules.rtcp.Some? && p.protocol.Udp? && p.dport == rules.rtcp.value.0 && p.sport == rules.rtcp.value.1 && Narrowed(rules, p)))
  }

  predicate Narrowed(rules: Rules, p: Packet) {
    (rules.local.Some? ==> p.dst == rules.local.value) && (rules.peer.Some? ==> p.src == rules.peer.value)
  }

  // ---------- The options of a line ----------

  /** A flag and a value, not a protocol module. */
  ghost predicate IsOption(text: string) {
    IsPair(text) && text[0] == '-' && (|text| > 3 && text[..3] == "-m " ==> text[3] != 't' && text[3] != 'u')
  }

  lemma PairIsOption(flag: string, value: string, p: Packet)
    requires IsToken(flag) && IsToken(value) && flag[0] == '-'
    requires flag == "-m" ==> value[0] != 't' && value[0] != 'u'
    ensures IsOption(flag + " " + value)
    ensures Matches(flag + " " + value, p) <==> Satisfies(flag, value, p)
  {
    var text := flag + " " + value;
    assert IsPair(text);
    PairWords(flag, value, "");
    assert text + "" == text;
    NoWords();
    if |text| > 3 && text[..3] == "-m " {
      ShortFlag(flag, value);
    }
  }

  lemma ShortFlag(flag: string, value: string)
    requires ' ' !in flag && |flag + " " + value| > 3 && (flag + " " + value)[..3] == "-m " && value != "" && value[0] != ' '
    ensures flag == "-m" && (flag + " " + value)[3] == value[0]
  {
    var text := flag + " " + value;
    assert text[0] == text[..3][0] && text[1] == text[..3][1] && text[2] == text[..3][2];
    assert text[|flag|] == ' ';
    assert forall j :: 0 <= j < |flag| ==> text[j] == flag[j] && flag[j] in flag;
  }

  /** What would have to stand at a place where a protocol module occurs. */
  predicate ModuleAt(s: string, i: nat) {
    i + 4 < |s| && s[i] == ' ' && s[i + 1] == '-' && s[i + 2] == 'm' && s[i + 3] == ' ' && (s[i + 4] == 't' || s[i + 4] == 'u')
  }

  lemma OccurrenceIsModule(s: string, pat: string, i: nat)
    requires (pat == TCP_MODULE || pat == UDP_MODULE) && At(s, pat, i)
    ensures ModuleAt(s, i)
  {
    AtChars(s, pat, i, 0);
    AtChars(s, pat, i, 1);
    AtChars(s, pat, i, 2);
    AtChars(s, pat, i, 3);
    AtChars(s, pat, i, 4);
  }

  lemma ModuleBehind(a: string, b: string, i: nat)
    requires ModuleAt(a + b, i) && i >= |a|
    ensures ModuleAt(b, i - |a|)
  {
  }

  /** The one space inside an option is followed neither by a module's first letters nor by `-m` alone and such a word. */
  lemma InsidePair(t: string, rest: string, i: nat)
    requires IsPair(t) && (rest == "" || (rest[0] == ' ' && |rest| > 1 && rest[1] == '-'))
    ensures i < |t| ==> !ModuleAt(t + rest, i)
  {
    var a, b :| IsToken(a) && IsToken(b) && t == a + " " + b;
    PairChars(a, b, rest);
    if i < |t| && i != |a| {
      assert (t + rest)[i] != ' ';
    }
    if i == |a| {
      AfterFlag(b, rest);
      assert t + rest == a + (" " + (b + rest));
      if ModuleAt(t + rest, i) {
        ModuleBehind(a, " " + (b + rest), i);
        assert false;
      }
    }
  }

  lemma PairChars(a: string, b: string, rest: string)
    requires IsToken(a) && IsToken(b)
    ensures forall j :: 0 <= j < |a + " " + b| && j != |a| ==> (a + " " + b + rest)[j] != ' '
  {
    var s := a + " " + b + rest;
    assert forall j :: 0 <= j < |a| ==> s[j] == a[j] && a[j] in a;
    assert forall j :: 0 <= j < |b| ==> s[|a| + 1 + j] == b[j] && b[j] in b;
    assert forall j :: |a| < j < |a + " " + b| ==> s[j] == b[j - |a| - 1] && b[j - |a| - 1] in b;
  }

  lemma AfterFlag(b: string, rest: string)
    requires IsToken(b) && (rest == "" || (rest[0] == ' ' && |rest| > 1 && rest[1] == '-'))
    ensures !ModuleAt(" " + (b + rest), 0)
  {
    var s := " " + (b + rest);
    assert forall j :: 0 <= j < |b| ==> s[1 + j] == b[j] && b[j] in b;
    assert rest != "" ==> s[1 + |b|] == ' ' && s[2 + |b|] == '-';
  }

  /** A text that starts with an option does not start with a protocol module. */
  lemma NotFirst(t: string, rest: string)
    requires IsOption(t)
    ensures !ModuleAt(" " + (t + rest), 0)
  {
    var s := t + rest;
    assert t <= s;
    var a, b :| IsToken(a) && IsToken(b) && t == a + " " + b;
    assert forall j :: 0 <= j < |a| ==> t[j] == a[j] && a[j] in a;
    assert t[|a|] == ' ' && t[|a| + 1] == b[0];
    var u := " " + s;
    assert forall j :: 0 <= j < |t| ==> u[j + 1] == t[j];
    if ModuleAt(u, 0) {
      assert u[1] == s[0] && u[2] == s[1] && u[3] == s[2] && u[4] == s[3];
      FirstThree(t, a);
      assert false;
    }
  }

  lemma FirstThree(t: string, a: string)
    requires IsToken(a) && |t| > |a| + 1 && t[..|a|] == a && t[|a|] == ' '
    requires t[0] == '-' && (|t| > 1 ==> t[1] == 'm') && (|t| > 2 ==> t[2] == ' ')
    ensures |t| > 3 && t[..3] == "-m "
  {
    assert forall j :: 0 <= j < |a| ==> t[j] == t[..|a|][j] && a[j] in a;
    assert a[0] in a;
  }

  lemma {:induction false} PairTextsOfFlat(options: seq<string>)
    requires forall t :: t in options ==> IsPair(t)
    ensures PairTexts(Flat(options)) == options && |Flat(options)| % 2 == 0
  {
    hide Words, IsPair;
    if options != [] {
      PairIsItsWords(options[0]);
      PairTextsOfFlat(options[1..]);
      hide PairTexts;
      PairTextsCons(Words(options[0]), Flat(options[1..]));
      assert options == [options[0]] + options[1..];
    }
  }

  // ---------- Removing whole protocol modules ----------

  const TCP_OPTION := "-m tcp"
  const UDP_OPTION := "-m udp"

  /** An option as the kernel prints it: one of ours, or a whole protocol module. */
  ghost predicate IsPrinted(t: string) {
    IsOption(t) || t == TCP_OPTION || t == UDP_OPTION
  }

  function Drop(options: seq<string>, x: string): seq<string> {
    if options == [] then [] else (if options[0] == x then [] else [options[0]]) + Drop(options[1..], x)
  }

  function NonModules(options: seq<string>): seq<string> {
    Drop(Drop(options, TCP_OPTION), UDP_OPTION)
  }

  function Tail(options: seq<string>): string {
    if options == [] then "" else (" " + options[0]) + Tail(options[1..])
  }

  lemma {:induction false} LineTail(options: seq<string>)
    requires options != []
    ensures Line(options) == options[0] + Tail(options[1..])
  {
    if |options| == 1 {
      assert options[0] + "" == options[0];
    } else {
      LineTail(options[1..]);
      var t := options[1];
      assert options[0] + " " + (t + Tail(options[2..])) == options[0] + ((" " + t) + Tail(options[2..]));
      assert options[1..][1..] == options[2..];
    }
  }

  lemma {:induction false} DropMembers(options: seq<string>, x: string)
    ensures forall t :: t in Drop(options, x) <==> t in options && t != x
  {
    if options != [] {
      DropMembers(options[1..], x);
      assert options == [options[0]] + options[1..];
    }
  }

  lemma {:induction false} DropNothing(options: seq<string>, x: string)
    requires x !in options
    ensures Drop(options, x) == options
  {
    if options != [] {
      assert options[0] in options && forall t :: t in options[1..] ==> t in options;
      DropNothing(options[1..], x);
    }
  }

  lemma ModuleTexts()
    ensures TCP_MODULE == " " + TCP_OPTION && UDP_MODULE == " " + UDP_OPTION
    ensures IsPair(TCP_OPTION) && IsPair(UDP_OPTION) && TCP_OPTION != UDP_OPTION
    ensures !IsOption(TCP_OPTION) && !IsOption(UDP_OPTION)
    ensures |TCP_OPTION| == |UDP_OPTION| == 6 && TCP_OPTION[0] == UDP_OPTION[0] == '-' && TCP_OPTION[3] == 't' && UDP_OPTION[3] == 'u'
  {
    assert IsToken("-m") && IsToken("tcp") && IsToken("udp");
    assert TCP_OPTION == "-m" + " " + "tcp" && UDP_OPTION == "-m" + " " + "udp";
  }

  lemma PrintedIsPair(t: string)
    requires IsPrinted(t)
    ensures IsPair(t) && t != "" && t[0] == '-'
  {
    ModuleTexts();
  }

  /** Text without an occurrence in its first part keeps that part. */
  lemma RemoveSkips(t: string, r: string, pat: string)
    requires pat != "" && forall i: nat :: i < |t| ==> !At(t + r, pat, i)
    ensures RemoveAll(t + r, pat) == t + RemoveAll(r, pat)
  {
    FindSkips(t, r, pat);
    hide RemoveAll, At;
    match Find(r, pat)
    case None =>
      RemoveNothing(r, pat);
      RemoveNothing(t + r, pat);
    case Some(k) => RemoveBehind(t, r, pat, k);
  }

  lemma RemoveBehind(t: string, r: string, pat: string, k: nat)
    requires pat != "" && Find(r, pat) == Some(k) && Find(t + r, pat) == Some(|t| + k)
    ensures RemoveAll(t + r, pat) == t + RemoveAll(r, pat)
  {
    hide *;
    Within(r, pat, k);
    Within(t + r, pat, |t| + k);
    SkipSlices(t, r, k, k + |pat|);
    Shifted(t, r[..k], RemoveAll(r[k + |pat|..], pat));
  }

  lemma SkipSlices(t: string, r: string, k: nat, n: nat)
    requires k <= n <= |r|
    ensures (t + r)[..|t| + k] == t + r[..k] && (t + r)[|t| + n..] == r[n..]
  {
  }

  lemma Shifted(a: string, b: string, c: string)
    ensures a + b + c == a + (b + c)
  {
  }

  lemma FindFits(r: string, pat: string, k: nat)
    requires Find(r, pat) == Some(k)
    ensures k + |pat| <= |r|
  {
    hide Find;
  }

  lemma Within(r: string, pat: string, k: nat)
    requires pat != "" && Find(r, pat) == Some(k)
    ensures k + |pat| <= |r| && RemoveAll(r, pat) == r[..k] + RemoveAll(r[k + |pat|..], pat)
  {
    FindFits(r, pat, k);
    hide Find, FindFrom, At;
  }

  lemma FindSkips(t: string, r: string, pat: string)
    requires pat != "" && forall i: nat :: i < |t| ==> !At(t + r, pat, i)
    ensures Find(t + r, pat) == match Find(r, pat) case None => None case Some(k) => Some(|t| + k)
  {
    hide At, FindFrom;
    forall i: nat | |t| <= i ensures At(t + r, pat, i) <==> At(r, pat, i - |t|) {
      AtSuffix(t, r, pat, i);
    }
    match Find(r, pat)
    case None => FindNone(t + r, pat);
    case Some(k) =>
      assert At(r, pat, |t| + k - |t|);
      hide Find;
      FindIs(t + r, pat, |t| + k);
  }

  lemma RemoveHits(pat: string, r: string)
    requires pat != ""
    ensures RemoveAll(pat + r, pat) == RemoveAll(r, pat)
  {
    assert (pat + r)[0..|pat|] == pat && (pat + r)[|pat|..] == r && (pat + r)[..0] == "";
    FindIs(pat + r, pat, 0);
  }

  /** What follows an option on a line. */
  predicate IsRest(r: string) {
    r == "" || (r[0] == ' ' && |r| > 1 && r[1] == '-')
  }

  lemma TailIsRest(options: seq<string>)
    requires forall t :: t in options ==> IsPrinted(t)
    ensures IsRest(Tail(options))
  {
    if options != [] {
      assert options[0] in options;
      PrintedIsPair(options[0]);
    }
  }

  /** No module starts inside an option, nor before one that is another. */
  lemma NoneInOption(t: string, r: string, x: string, i: nat)
    requires IsPrinted(t) && t != x && (x == TCP_OPTION || x == UDP_OPTION) && IsRest(r) && i <= |t|
    ensures !At((" " + t) + r, " " + x, i)
  {
    ModuleTexts();
    PrintedIsPair(t);
    var s := " " + (t + r);
    assert s == (" " + t) + r;
    if At(s, " " + x, i) {
      OccurrenceIsModule(s, " " + x, i);
      if i > 0 {
        ModuleBehind(" ", t + r, i);
        InsidePair(t, r, i - 1);
      } else if IsOption(t) {
        NotFirst(t, r);
      } else {
        OtherModule(t, r, x);
      }
      assert false;
    }
  }

  lemma OtherModule(t: string, r: string, x: string)
    requires |t| == |x| && t != x
    ensures !At(" " + (t + r), " " + x, 0)
  {
    var s := " " + (t + r);
    assert s == (" " + t) + r;
    assert s[0..1 + |x|] == " " + t;
    assert (" " + t)[1..] == t && (" " + x)[1..] == x;
  }

  /** Removing a protocol module drops whole options. */
  lemma {:induction false} RemoveFromTail(options: seq<string>, x: string)
    requires (forall t :: t in options ==> IsPrinted(t)) && (x == TCP_OPTION || x == UDP_OPTION)
    ensures RemoveAll(Tail(options), " " + x) == Tail(Drop(options, x))
  {
    if options == [] {
      NothingLeft(" " + x);
    } else {
      var t, rest := options[0], options[1..];
      assert t in options && forall u :: u in rest ==> u in options;
      TailIsRest(rest);
      hide IsPrinted, IsRest, RemoveAll, At;
      RemoveFromTail(rest, x);
      if t == x {
        RemoveHits(" " + x, Tail(rest));
        assert [] + Drop(rest, x) == Drop(rest, x);
      } else {
        forall i: nat | i < |" " + t| ensures !At((" " + t) + Tail(rest), " " + x, i) {
          NoneInOption(t, Tail(rest), x, i);
        }
        RemoveSkips(" " + t, Tail(rest), " " + x);
        assert ([t] + Drop(rest, x))[1..] == Drop(rest, x);
      }
    }
  }

  lemma NothingLeft(pat: string)
    requires pat != ""
    ensures RemoveAll("", pat) == ""
  {
  }

  lemma RemoveFromLine(options: seq<string>, x: string)
    requires (forall t :: t in options ==> IsPrinted(t)) && (x == TCP_OPTION || x == UDP_OPTION)
    requires options != [] && options[0] != x
    ensures RemoveAll(Line(options), " " + x) == Line(Drop(options, x))
    ensures Drop(options, x) != [] && Drop(options, x)[0] == options[0]
  {
    var t, rest := options[0], options[1..];
    assert t in options && forall u :: u in rest ==> u in options;
    TailIsRest(rest);
    PrintedIsPair(t);
    ModuleTexts();
    assert Drop(options, x) == [t] + Drop(rest, x);
    hide IsPrinted, RemoveAll, At, IsPair, Line, Drop, Tail;
    LineTail(options);
    LineTail([t] + Drop(rest, x));
    assert ([t] + Drop(rest, x))[1..] == Drop(rest, x);
    forall i: nat | i < |t| ensures !At(t + Tail(rest), " " + x, i) {
      InsidePair(t, Tail(rest), i);
      if At(t + Tail(rest), " " + x, i) {
        OccurrenceIsModule(t + Tail(rest), " " + x, i);
        assert false;
      }
    }
    RemoveSkips(t, Tail(rest), " " + x);
    RemoveFromTail(rest, x);
  }

  /** Cleaning a line of options drops exactly its whole protocol modules. */
  lemma CleanLine(options: seq<string>)
    requires (forall t :: t in options ==> IsPrinted(t)) && options != [] && IsOption(options[0])
    ensures Clean(Line(options)) == Line(NonModules(options))
  {
    ModuleTexts();
    assert options[0] != TCP_OPTION && options[0] != UDP_OPTION;
    hide IsPrinted, RemoveAll, Line, Drop, IsOption, IsPair;
    RemoveFromLine(options, TCP_OPTION);
    DropMembers(options, TCP_OPTION);
    RemoveFromLine(Drop(options, TCP_OPTION), UDP_OPTION);
  }

  /** A printed line is read as its options, and cleaned as those of them that are no protocol modules. */
  lemma PrintedPairs(options: seq<string>)
    requires (forall t :: t in options ==> IsPrinted(t)) && options != [] && IsOption(options[0])
    ensures RawPairs(Line(options)) == options
    ensures Pairs(Line(options)) == NonModules(options) && EvenTokens(Line(options))
  {
    forall t | t in options ensures IsPair(t) {
      PrintedIsPair(t);
    }
    var kept := NonModules(options);
    DropMembers(options, TCP_OPTION);
    DropMembers(Drop(options, TCP_OPTION), UDP_OPTION);
    CleanLine(options);
    hide Words, PairTexts, Clean, IsPair, IsOption, IsPrinted, NonModules, Line;
    JoinedOptions(options);
    JoinedOptions(kept);
    PairTextsOfFlat(options);
    PairTextsOfFlat(kept);
  }

  lemma JoinedOptions(options: seq<string>)
    requires forall t :: t in options ==> IsPair(t)
    ensures Words(Line(options)) == Flat(options)
  {
    hide Words, IsPair;
    JoinedWords(options);
  }

  /** A line of our own options is read back as those options, cleaned or not. */
  lemma LinePairs(options: seq<string>)
    requires options != [] && forall t :: t in options ==> IsOption(t)
    ensures Pairs(Line(options)) == RawPairs(Line(options)) == options && EvenTokens(Line(options))
    ensures NonModules(options) == options && TCP_OPTION !in options && UDP_OPTION !in options
  {
    ModuleTexts();
    assert options[0] in options;
    assert TCP_OPTION !in options && UDP_OPTION !in options;
    hide IsOption, IsPair, Line, Pairs, RawPairs;
    DropNothing(options, TCP_OPTION);
    DropNothing(options, UDP_OPTION);
    PrintedPairs(options);
  }

  // ---------- The rules admit exactly what is described ----------

  ghost predicate AreOptions(options: seq<string>) {
    forall t :: t in options ==> IsOption(t)
  }

  lemma AllOfSum(a: seq<string>, b: seq<string>, p: Packet)
    ensures AreOptions(a + b) <==> AreOptions(a) && AreOptions(b)
    ensures All(a + b, p) <==> All(a, p) && All(b, p)
  {
    hide IsOption, Matches;
    assert forall t :: t in a + b <==> t in a || t in b;
  }

  lemma FixedTokens(s: string)
    requires s in {"-A", "-i", "-m", "--src-group", "-d", "-s", "-p", "--sport", "--dport", "-j", CHAIN, "devgroup", GROUP_TEXT,
                   "tcp", "udp", "ACCEPT"}
    ensures IsToken(s)
  {
    hide IsToken;
    if s in {CHAIN, "devgroup", GROUP_TEXT, "tcp", "udp", "ACCEPT"} {
      FixedValue(s);
    } else {
      FixedFlag(s);
    }
  }

  lemma FixedValue(s: string)
    requires s in {CHAIN, "devgroup", GROUP_TEXT, "tcp", "udp", "ACCEPT"}
    ensures IsToken(s)
  {
  }

  lemma FixedFlag(s: string)
    requires s in {"-A", "-i", "-m", "--src-group", "-d", "-s", "-p", "--sport", "--dport", "-j"}
    ensures IsToken(s)
  {
  }

  lemma NameIsToken(name: string)
    requires ValidName(name)
    ensures IsToken(name)
  {
    assert name[0] in name;
  }

  /** One option by itself. */
  lemma SingleOption(flag: string, value: string, p: Packet)
    requires IsToken(flag) && IsToken(value) && flag[0] == '-'
    requires flag == "-m" ==> value[0] != 't' && value[0] != 'u'
    ensures AreOptions([flag + " " + value])
    ensures All([flag + " " + value], p) <==> Satisfies(flag, value, p)
  {
    PairIsOption(flag, value, p);
    hide IsOption, Matches, Satisfies;
    assert flag + " " + value in [flag + " " + value];
  }

  lemma ChainOption(p: Packet)
    ensures AreOptions(["-A " + CHAIN]) && All(["-A " + CHAIN], p)
  {
    FixedTokens("-A");
    FixedTokens(CHAIN);
    SingleOption("-A", CHAIN, p);
    assert "-A" + " " + CHAIN == "-A " + CHAIN;
  }

  lemma InterfaceOption(name: string, p: Packet)
    requires ValidName(name)
    ensures AreOptions(["-i " + name]) && (All(["-i " + name], p) <==> name == p.interface)
  {
    FixedTokens("-i");
    NameIsToken(name);
    SingleOption("-i", name, p);
    assert "-i" + " " + name == "-i " + name;
  }

  lemma ModuleOption(p: Packet)
    ensures AreOptions(["-m devgroup"]) && All(["-m devgroup"], p)
  {
    FixedTokens("-m");
    FixedTokens("devgroup");
    SingleOption("-m", "devgroup", p);
    assert "-m" + " " + "devgroup" == "-m devgroup";
  }

  lemma GroupValue()
    ensures Value("574644", 16) == Some(0x574644)
  {
    hide Value;
    assert Value("", 16) == Some(0) by {
      EmptyValue();
    }
    assert "" + ['5'] == "5" && "5" + ['7'] == "57" && "57" + ['4'] == "574" && "574" + ['6'] == "5746";
    assert "5746" + ['4'] == "57464" && "57464" + ['4'] == "574644";
    ValueOfSnoc("", '5', 16, 5);
    ValueOfSnoc("5", '7', 16, 7);
    ValueOfSnoc("57", '4', 16, 4);
    ValueOfSnoc("574", '6', 16, 6);
    ValueOfSnoc("5746", '4', 16, 4);
    ValueOfSnoc("57464", '4', 16, 4);
  }

  lemma EmptyValue()
    ensures Value("", 16) == Some(0)
  {
  }

  /** The group that the rules name is the one that claimed interfaces are tagged with. */
  lemma GroupTextDenotes()
    ensures DenotedGroup(GROUP_TEXT) == Some(DEVICE_GROUP)
  {
    GroupValue();
    hide Value;
    assert GROUP_TEXT[..2] == "0x" && GROUP_TEXT[2..] == "574644" && "574644"[0] != '+';
  }

  lemma GroupSatisfied(p: Packet)
    ensures Satisfies("--src-group", GROUP_TEXT, p) <==> p.group == DEVICE_GROUP
  {
    GroupTextDenotes();
    hide DenotedGroup, IpText, Digits, GROUP_TEXT;
    assert "--src-group"[1] == '-';
    assert "-A"[1] == 'A' && "-i"[1] == 'i' && "-m"[1] == 'm';
  }

  lemma GroupOption(p: Packet)
    ensures AreOptions(["--src-group " + GROUP_TEXT]) && (All(["--src-group " + GROUP_TEXT], p) <==> p.group == DEVICE_GROUP)
  {
    FixedTokens("--src-group");
    FixedTokens(GROUP_TEXT);
    GroupSatisfied(p);
    hide Satisfies, IsToken, AreOptions, All;
    SingleOption("--src-group", GROUP_TEXT, p);
    assert "--src-group" + " " + GROUP_TEXT == "--src-group " + GROUP_TEXT;
  }

  lemma PrefixOptions(name: string, p: Packet)
    requires ValidName(name)
    ensures AreOptions(Prefix(name))
    ensures All(Prefix(name), p) <==> p.interface == name && p.group == DEVICE_GROUP
  {
    ChainOption(p);
    InterfaceOption(name, p);
    ModuleOption(p);
    GroupOption(p);
    hide IsOption, Matches, AreOptions, All;
    var chain, interface, load, group := ["-A " + CHAIN], ["-i " + name], ["-m devgroup"], ["--src-group " + GROUP_TEXT];
    AllOfSum(chain, interface, p);
    AllOfSum(chain + interface, load, p);
    AllOfSum(chain + interface + load, group, p);
    assert Prefix(name) == chain + interface + load + group;
  }

  lemma NarrowOptions(flag: string, ip: Option<Ipv4>, p: Packet)
    requires flag == "-d" || flag == "-s"
    ensures AreOptions(Narrow(flag, ip))
    ensures All(Narrow(flag, ip), p) <==> (ip.Some? ==> (if flag == "-d" then p.dst else p.src) == ip.value)
  {
    if ip.Some? {
      FixedTokens(flag);
      IpIsToken(ip.value);
      SingleOption(flag, IpText(ip.value) + "/32", p);
      hide IpText, IsOption, IsToken, AreOptions, All;
      SameAddress(ip.value, p.dst);
      SameAddress(ip.value, p.src);
    }
  }

  lemma SameAddress(a: Ipv4, b: Ipv4)
    ensures IpText(a) + "/32" == IpText(b) + "/32" <==> a == b
  {
    IpRoundTrip(a);
    IpRoundTrip(b);
    hide IpText, ParseIp;
    SameBeforeSuffix(IpText(a), IpText(b), "/32");
  }

  lemma SameBeforeSuffix(a: string, b: string, suffix: string)
    ensures a + suffix == b + suffix <==> a == b
  {
    if a + suffix == b + suffix {
      assert |a| == |b|;
      assert (a + suffix)[..|a|] == a && (b + suffix)[..|a|] == b;
    }
  }

  lemma SourcePortOptions(port: Option<Port>, p: Packet)
    ensures AreOptions(SourcePort(port))
    ensures All(SourcePort(port), p) <==> (port.Some? ==> p.sport == port.value)
  {
    if port.Some? {
      var text := Digits(port.value, 10);
      FixedTokens("--sport");
      DigitsAreToken(port.value, 10, 0);
      SingleOption("--sport", text, p);
      assert "--sport" + " " + text == "--sport " + text;
      ValueOfDigits(port.value, 10);
      ValueOfDigits(p.sport, 10);
    }
  }

  lemma DestinationPortOption(port: Port, p: Packet)
    ensures AreOptions(["--dport " + Digits(port, 10)])
    ensures All(["--dport " + Digits(port, 10)], p) <==> p.dport == port
  {
    var text := Digits(port, 10);
    FixedTokens("--dport");
    DigitsAreToken(port, 10, 0);
    SingleOption("--dport", text, p);
    assert "--dport" + " " + text == "--dport " + text;
    ValueOfDigits(port, 10);
    ValueOfDigits(p.dport, 10);
  }

  lemma ProtocolOption(protocol: string, p: Packet)
    requires protocol == "tcp" || protocol == "udp"
    ensures AreOptions(["-p " + protocol])
    ensures All(["-p " + protocol], p) <==> p.protocol == if protocol == "tcp" then Tcp else Udp
  {
    FixedTokens("-p");
    FixedTokens(protocol);
    SingleOption("-p", protocol, p);
    assert "-p" + " " + protocol == "-p " + protocol;
  }

  lemma AcceptSatisfied(p: Packet)
    ensures Satisfies("-j", "ACCEPT", p)
  {
    hide IpText, Digits;
    assert "-j"[1] == 'j';
  }

  lemma TargetOption(p: Packet)
    ensures AreOptions(["-j ACCEPT"]) && All(["-j ACCEPT"], p)
  {
    FixedTokens("-j");
    FixedTokens("ACCEPT");
    AcceptSatisfied(p);
    hide IsToken, AreOptions, All, Satisfies;
    SingleOption("-j", "ACCEPT", p);
    assert "-j" + " " + "ACCEPT" == "-j ACCEPT";
  }

  /** The packets that one rendered rule admits. */
  lemma RuleAdmits(rules: Rules, dst: Option<Ipv4>, src: Option<Ipv4>, protocol: string, sport: Option<Port>, dport: Port, p: Packet)
    requires ValidName(rules.interface.name) && (protocol == "tcp" || protocol == "udp")
    ensures AreOptions(Options(rules, dst, src, protocol, sport, dport))
    ensures Admits(Line(Options(rules, dst, src, protocol, sport, dport)), p)
       <==> && p.interface == rules.interface.name && p.group == DEVICE_GROUP
            && (dst.Some? ==> p.dst == dst.value) && (src.Some? ==> p.src == src.value)
            && (p.protocol == if protocol == "tcp" then Tcp else Udp)
            && (sport.Some? ==> p.sport == sport.value) && p.dport == dport
  {
    var name := rules.interface.name;
    var to, from, proto, sender, receiver, target :=
      Narrow("-d", dst), Narrow("-s", src), ["-p " + protocol], SourcePort(sport), ["--dport " + Digits(dport, 10)], ["-j ACCEPT"];
    PrefixOptions(name, p);
    NarrowOptions("-d", dst, p);
    NarrowOptions("-s", src, p);
    ProtocolOption(protocol, p);
    SourcePortOptions(sport, p);
    DestinationPortOption(dport, p);
    TargetOption(p);
    AllOfSum(Prefix(name), to, p);
    AllOfSum(Prefix(name) + to, from, p);
    AllOfSum(Prefix(name) + to + from, proto, p);
    AllOfSum(Prefix(name) + to + from + proto, sender, p);
    AllOfSum(Prefix(name) + to + from + proto + sender, receiver, p);
    AllOfSum(Prefix(name) + to + from + proto + sender + receiver, target, p);
    var options := Options(rules, dst, src, protocol, sport, dport);
    assert options == Prefix(name) + to + from + proto + sender + receiver + target;
    assert AreOptions(options);
    assert AreOptions(options) ==> forall t :: t in options ==> IsOption(t);
    LinePairs(options);
  }

  lemma ChainOfSum(a: seq<string>, b: seq<string>, p: Packet)
    ensures ChainAdmits(a + b, p) <==> ChainAdmits(a, p) || ChainAdmits(b, p)
  {
    hide Admits;
    if ChainAdmits(a, p) {
      var i :| 0 <= i < |a| && Admits(a[i], p);
      assert (a + b)[i] == a[i];
    }
    if ChainAdmits(b, p) {
      var i :| 0 <= i < |b| && Admits(b[i], p);
      assert (a + b)[|a| + i] == b[i];
    }
  }

  lemma ChainOfOne(line: string, p: Packet)
    ensures ChainAdmits([line], p) <==> Admits(line, p)
  {
    hide Admits;
    assert [line][0] == line;
  }

  /** One more rule. */
  lemma OneMore(lines: seq<seq<string>>, options: seq<string>, p: Packet)
    ensures ChainAdmits(LineTexts(lines + [options]), p) <==> ChainAdmits(LineTexts(lines), p) || Admits(Line(options), p)
  {
    hide Admits, Line;
    LinesOfSum(lines, [options]);
    assert [options][1..] == [];
    assert LineTexts([options]) == [Line(options)];
    ChainOfSum(LineTexts(lines), [Line(options)], p);
    ChainOfOne(Line(options), p);
  }

  lemma NoLines(p: Packet)
    ensures !ChainAdmits(LineTexts([]), p)
  {
  }

  /** The chain admits what one of its rules admits. */
  lemma ChainOfRules(rules: Rules, p: Packet)
    requires RuleOptions(rules).Success?
    ensures ChainAdmits(LineTexts(RuleOptions(rules).value), p)
       <==> || Admits(Line(Options(rules, None, None, "udp", Some(67), 68)), p)
            || (rules.groupOwner && Admits(Line(Options(rules, None, None, "udp", Some(68), 67)), p))
            || Admits(Line(Options(rules, rules.local, rules.peer, "tcp", None, rules.rtsp)), p)
            || (rules.rtcp.Some? && Admits(Line(Options(rules, rules.local, rules.peer, "udp", Some(rules.rtcp.value.1), rules.rtcp.value.0)), p))
  {
    hide Options, Line, Admits, ChainAdmits, LineTexts;
    var reply := Options(rules, None, None, "udp", Some(67), 68);
    var request := Options(rules, None, None, "udp", Some(68), 67);
    var control := Options(rules, rules.local, rules.peer, "tcp", None, rules.rtsp);
    var first := [reply];
    NoLines(p);
    assert [] + [reply] == first;
    OneMore([], reply, p);
    var second := first + (if rules.groupOwner then [request] else []);
    if rules.groupOwner {
      OneMore(first, request, p);
    } else {
      assert second == first;
    }
    OneMore(second, control, p);
    if rules.rtcp.Some? {
      var media := Options(rules, rules.local, rules.peer, "udp", Some(rules.rtcp.value.1), rules.rtcp.value.0);
      OneMore(second + [control], media, p);
      assert RuleOptions(rules) == Success(second + [control] + [media]);
    } else {
      assert second + [control] + [] == second + [control];
      assert RuleOptions(rules) == Success(second + [control]);
    }
  }

  /** Main result: the rendered rules admit exactly the packets described. */
  lemma LinesAdmit(rules: Rules, p: Packet)
    requires RuleLines(rules).Success?
    ensures ChainAdmits(RuleLines(rules).value, p) <==> Described(rules, p)
  {
    hide Options, Line, Admits, ChainAdmits, LineTexts, ValidName;
    ChainOfRules(rules, p);
    RuleAdmits(rules, None, None, "udp", Some(67), 68, p);
    RuleAdmits(rules, None, None, "udp", Some(68), 67, p);
    RuleAdmits(rules, rules.local, rules.peer, "tcp", None, rules.rtsp, p);
    if rules.rtcp.Some? {
      RuleAdmits(rules, rules.local, rules.peer, "udp", Some(rules.rtcp.value.1), rules.rtcp.value.0, p);
    }
  }

  // ---------- Comparing with the live chain ----------

  /** The rule lines in what the kernel prints for the chain, in normal form. */
  function NormalRules(lines: seq<string>): seq<string> {
    if lines == [] then []
    else (if "-A " <= lines[0] then [NormalizeRule(lines[0])] else []) + NormalRules(lines[1..])
  }

  function Normalized(lines: seq<string>): (r: seq<string>)
    ensures |r| == |lines| && forall i :: 0 <= i < |r| ==> r[i] == NormalizeRule(lines[i])
  {
    if lines == [] then [] else [NormalizeRule(lines[0])] + Normalized(lines[1..])
  }

  /** The rule lines themselves. */
  function RulesOf(lines: seq<string>): seq<string> {
    if lines == [] then [] else (if "-A " <= lines[0] then [lines[0]] else []) + RulesOf(lines[1..])
  }

  lemma {:induction false} NormalRulesOf(lines: seq<string>)
    ensures NormalRules(lines) == Normalized(RulesOf(lines))
  {
    hide NormalizeRule;
    if lines != [] {
      NormalRulesOf(lines[1..]);
      if "-A " <= lines[0] {
        assert ([lines[0]] + RulesOf(lines[1..]))[1..] == RulesOf(lines[1..]);
      }
    }
  }

  lemma NextLine(lines: seq<string>, i: nat)
    requires i < |lines|
    ensures NormalRules(lines[i..]) == (if "-A " <= lines[i] then [NormalizeRule(lines[i])] else []) + NormalRules(lines[i + 1..])
  {
    hide NormalizeRule;
    assert lines[i..][1..] == lines[i + 1..];
  }

  /** Whether the chain as printed is the session's: the loop that filters and normalizes, then the comparison. */
  method Unchanged(printed: seq<string>, rules: Rules) returns (r: bool)
    ensures r <==> RuleLines(rules).Success? && NormalRules(printed) == Normalized(RuleLines(rules).value)
  {
    hide NormalizeRule, RuleLines;
    var expected := Render(rules);
    if expected.Failure? {
      return false;
    }
    var actual: seq<string> := [];
    for i := 0 to |printed|
      invariant NormalRules(printed) == actual + NormalRules(printed[i..])
    {
      NextLine(printed, i);
      if "-A " <= printed[i] {
        actual := actual + [NormalizeRule(printed[i])];
      }
    }
    r := actual == Normalized(expected.value);
  }

  /**
   What cleaning removes from a printed rule is whole protocol modules, each of the protocol that the rule names:
   so the kernel prints rules, whose modules load only beside their protocol.
   */
  predicate WholeModules(line: string) {
    && Pairs(line) == NonModules(RawPairs(line))
    && (TCP_OPTION in RawPairs(line) ==> "-p tcp" in RawPairs(line))
    && (UDP_OPTION in RawPairs(line) ==> "-p udp" in RawPairs(line))
  }

  /** Lines made of printed options satisfy this when each module stands beside its protocol. */
  lemma PrintedIsWhole(options: seq<string>)
    requires (forall t :: t in options ==> IsPrinted(t)) && options != [] && IsOption(options[0])
    requires (TCP_OPTION in options ==> "-p tcp" in options) && (UDP_OPTION in options ==> "-p udp" in options)
    ensures WholeModules(Line(options))
  {
    PrintedPairs(options);
    hide IsOption, IsPrinted, Line, Pairs, RawPairs, NonModules;
  }

  lemma PairMatches(flag: string, value: string, text: string, p: Packet)
    requires IsToken(flag) && IsToken(value) && text == flag + " " + value
    ensures Matches(text, p) <==> Satisfies(flag, value, p)
  {
    hide Words, Satisfies;
    PairWords(flag, value, "");
    NoWords();
    assert flag + " " + value + "" == text;
  }

  /** On such a rule the cleaned options admit what the printed ones admit. */
  lemma CleanedAgrees(line: string, p: Packet)
    requires WholeModules(line)
    ensures Admits(line, p) <==> All(Pairs(line), p)
  {
    var raw := RawPairs(line);
    DropMembers(raw, TCP_OPTION);
    DropMembers(Drop(raw, TCP_OPTION), UDP_OPTION);
    ModulesMatch(p);
    NotModules();
    hide Matches, Pairs, RawPairs, Drop;
    if All(Pairs(line), p) {
      forall t | t in raw ensures Matches(t, p) {
        if t == TCP_OPTION {
          assert "-p tcp" in Pairs(line);
        } else if t == UDP_OPTION {
          assert "-p udp" in Pairs(line);
        } else {
          assert t in Pairs(line);
        }
      }
    }
  }

  lemma NotModules()
    ensures "-p tcp" != TCP_OPTION && "-p tcp" != UDP_OPTION && "-p udp" != TCP_OPTION && "-p udp" != UDP_OPTION
  {
    assert "-p tcp"[1] == 'p' && "-p udp"[1] == 'p' && TCP_OPTION[1] == 'm' && UDP_OPTION[1] == 'm';
  }

  lemma ModulesMatch(p: Packet)
    ensures Matches("-p tcp", p) ==> Matches(TCP_OPTION, p)
    ensures Matches("-p udp", p) ==> Matches(UDP_OPTION, p)
  {
    hide Matches;
    FixedTokens("-m");
    FixedTokens("-p");
    FixedTokens("tcp");
    FixedTokens("udp");
    ProtocolSatisfied(p);
    hide *;
    PairMatches("-p", "tcp", "-p tcp", p);
    PairMatches("-p", "udp", "-p udp", p);
    PairMatches("-m", "tcp", TCP_OPTION, p);
    PairMatches("-m", "udp", UDP_OPTION, p);
  }

  lemma ProtocolSatisfied(p: Packet)
    ensures Satisfies("-p", "tcp", p) ==> Satisfies("-m", "tcp", p)
    ensures Satisfies("-p", "udp", p) ==> Satisfies("-m", "udp", p)
  {
    hide IpText, Digits;
    assert "tcp"[0] != "udp"[0] && "-p"[1] == 'p' && "-m"[1] == 'm';
  }

  lemma RuleIsOptions(rules: Rules, dst: Option<Ipv4>, src: Option<Ipv4>, protocol: string, sport: Option<Port>, dport: Port)
    requires ValidName(rules.interface.name) && (protocol == "tcp" || protocol == "udp")
    ensures AreOptions(Options(rules, dst, src, protocol, sport, dport))
  {
    var p := Packet("", 0, Other, Ipv4(0, 0, 0, 0), Ipv4(0, 0, 0, 0), 0, 0);
    hide *;
    RuleAdmits(rules, dst, src, protocol, sport, dport, p);
  }

  lemma RulesAreOptions(rules: Rules)
    requires RuleOptions(rules).Success?
    ensures forall options :: options in RuleOptions(rules).value ==> AreOptions(options)
  {
    hide Options, AreOptions;
    RuleIsOptions(rules, None, None, "udp", Some(67), 68);
    RuleIsOptions(rules, None, None, "udp", Some(68), 67);
    RuleIsOptions(rules, rules.local, rules.peer, "tcp", None, rules.rtsp);
    if rules.rtcp.Some? {
      RuleIsOptions(rules, rules.local, rules.peer, "udp", Some(rules.rtcp.value.1), rules.rtcp.value.0);
    }
  }

  /** A rendered line has an even number of tokens and names no protocol module. */
  lemma LinesArePlain(rules: Rules, i: nat)
    requires RuleLines(rules).Success? && i < |RuleLines(rules).value|
    ensures EvenTokens(RuleLines(rules).value[i]) && Pairs(RuleLines(rules).value[i]) == RawPairs(RuleLines(rules).value[i])
    ensures WholeModules(RuleLines(rules).value[i])
  {
    var options := RuleOptions(rules).value[i];
    RulesAreOptions(rules);
    assert options in RuleOptions(rules).value;
    RulesStart(rules);
    hide IsOption, Line, RuleOptions, EvenTokens, Pairs, RawPairs;
    LinePairs(options);
  }

  lemma OptionsStart(rules: Rules, dst: Option<Ipv4>, src: Option<Ipv4>, protocol: string, sport: Option<Port>, dport: Port)
    ensures Starts(Options(rules, dst, src, protocol, sport, dport))
  {
    hide Narrow, SourcePort;
  }

  predicate Starts(options: seq<string>) {
    options != [] && options[0] == "-A " + CHAIN
  }

  lemma RulesStart(rules: Rules)
    requires RuleOptions(rules).Success?
    ensures forall options :: options in RuleOptions(rules).value ==> Starts(options)
  {
    hide Options, Starts;
    OptionsStart(rules, None, None, "udp", Some(67), 68);
    OptionsStart(rules, None, None, "udp", Some(68), 67);
    OptionsStart(rules, rules.local, rules.peer, "tcp", None, rules.rtsp);
    if rules.rtcp.Some? {
      OptionsStart(rules, rules.local, rules.peer, "udp", Some(rules.rtcp.value.1), rules.rtcp.value.0);
    }
  }

  lemma LineStarts(options: seq<string>)
    requires Starts(options)
    ensures "-A " <= Line(options)
  {
    LineTail(options);
    hide Line, Tail;
  }

  lemma LinesAreRules(rules: Rules)
    requires RuleLines(rules).Success?
    ensures forall line :: line in RuleLines(rules).value ==> "-A " <= line
  {
    var options := RuleOptions(rules).value;
    RulesStart(rules);
    hide RuleOptions, Line, Starts;
    forall i | 0 <= i < |options| ensures "-A " <= Line(options[i]) {
      assert options[i] in options;
      LineStarts(options[i]);
    }
  }

  /** Lines that are all rules, printed as they were written. */
  lemma {:induction false} NormalRulesOfLines(lines: seq<string>)
    requires forall line :: line in lines ==> "-A " <= line
    ensures NormalRules(lines) == Normalized(lines)
  {
    hide NormalizeRule;
    if lines != [] {
      assert lines[0] in lines && forall line :: line in lines[1..] ==> line in lines;
      NormalRulesOfLines(lines[1..]);
    }
  }

  /** The rendered lines, as they are, meet the condition on what the kernel prints. */
  lemma LinesAreWhole(rules: Rules)
    requires RuleLines(rules).Success?
    ensures forall line :: line in RulesOf(RuleLines(rules).value) ==> WholeModules(line)
  {
    var lines := RuleLines(rules).value;
    RulesAreLines(lines);
    forall line | line in lines ensures WholeModules(line) {
      var i :| 0 <= i < |lines| && lines[i] == line;
      LinesArePlain(rules, i);
    }
  }

  lemma {:induction false} RulesAreLines(lines: seq<string>)
    ensures forall line :: line in RulesOf(lines) ==> line in lines
  {
    if lines != [] {
      RulesAreLines(lines[1..]);
      assert forall line :: line in lines[1..] ==> line in lines;
    }
  }

  /** A printed rule with the normal form of a plain even one admits the same packets. */
  lemma SameNormalForm(a: string, b: string, p: Packet)
    requires EvenTokens(a) && Pairs(a) == RawPairs(a) && WholeModules(b) && NormalizeRule(b) == NormalizeRule(a)
    ensures Admits(b, p) <==> Admits(a, p)
  {
    hide EvenTokens, NormalizeRule, Pairs, RawPairs, Matches, WholeModules;
    NormalFormDetermines(a, b);
    CleanedAgrees(b, p);
    assert forall t :: t in Pairs(a) <==> t in multiset(Pairs(a));
    assert forall t :: t in Pairs(b) <==> t in multiset(Pairs(b));
  }

  /**
   Main result: when the comparison accepts what the kernel printed, the live chain admits exactly the packets
   that the session's rules describe, however the kernel reorders options and names protocol modules.
   */
  lemma IntactChainAdmits(printed: seq<string>, rules: Rules, p: Packet)
    requires RuleLines(rules).Success? && NormalRules(printed) == Normalized(RuleLines(rules).value)
    requires forall line :: line in RulesOf(printed) ==> WholeModules(line)
    ensures ChainAdmits(RulesOf(printed), p) <==> Described(rules, p)
  {
    var actual, expected := RulesOf(printed), RuleLines(rules).value;
    NormalRulesOf(printed);
    LinesAdmit(rules, p);
    assert |actual| == |Normalized(actual)| == |expected|;
    forall i | 0 <= i < |actual| ensures Admits(actual[i], p) <==> Admits(expected[i], p) {
      LinesArePlain(rules, i);
      assert actual[i] in RulesOf(printed);
      hide *;
      assert Normalized(actual)[i] == Normalized(expected)[i];
      SameNormalForm(expected[i], actual[i], p);
    }
    hide Admits, RuleLines, NormalRules, Normalized, Described, WholeModules;
  }

  // ---------- Protocol modules are ignored ----------

  predicate IsModule(pat: string) {
    |pat| == 7 && pat[0] == ' ' && pat[1] == '-' && pat[2] == 'm' && pat[3] == ' ' && pat[4] in "tu" && pat[5] in "cd" && pat[6] == 'p'
  }

  lemma ModulesAre()
    ensures IsModule(TCP_MODULE) && IsModule(UDP_MODULE)
  {
  }

  /** A protocol module in the middle of a text that has none is the only one. */
  lemma OnlyModule(a: string, extra: string, c: string, pat: string, i: nat)
    requires IsModule(extra) && IsModule(pat)
    requires forall j: nat :: !At(a, pat, j) && !At(c, pat, j)
    requires At(a + extra + c, pat, i)
    ensures i == |a| && pat == extra
  {
    var s := a + extra + c;
    assert s == a + (extra + c);
    if i + 7 <= |a| {
      AtPrefix(a, extra + c, pat, i);
      assert false;
    } else if |a| + 7 <= i {
      AtSuffix(a + extra, c, pat, i);
      assert false;
    } else {
      Overlap(a, extra, c, pat, i);
    }
  }

  /** Two protocol modules do not overlap. */
  lemma Overlap(a: string, extra: string, c: string, pat: string, i: nat)
    requires IsModule(extra) && IsModule(pat)
    requires At(a + extra + c, pat, i) && |a| < i + 7 && i < |a| + 7
    ensures i == |a| && pat == extra
  {
    var s := a + extra + c;
    assert forall k :: |a| <= k < |a| + 7 ==> s[k] == extra[k - |a|];
    assert forall k :: i <= k < i + 7 ==> s[k] == s[i..i + 7][k - i] == pat[k - i];
    hide At;
    assert s[|a|] == ' ' && s[|a| + 1] == '-' && s[i] == ' ' && s[i + 1] == '-';
    assert forall k :: |a| <= k < |a| + 7 && s[k] == '-' ==> k == |a| + 1;
    assert forall k :: i <= k < i + 7 && s[k] == '-' ==> k == i + 1;
    assert i == |a|;
    assert pat == s[i..i + 7] == extra;
  }

  lemma NoneInParts(a: string, c: string, pat: string, j: nat)
    requires !Contains(a + c, pat)
    ensures !At(a, pat, j) && !At(c, pat, j)
  {
    if At(a, pat, j) {
      AtPrefix(a, c, pat, j);
      assert false;
    }
    if At(c, pat, j) {
      AtSuffix(a, c, pat, |a| + j);
      assert false;
    }
  }

  lemma RemoveNothing(s: string, pat: string)
    requires pat != "" && !Contains(s, pat)
    ensures RemoveAll(s, pat) == s
  {
  }

  lemma RemoveModule(a: string, extra: string, c: string, pat: string)
    requires IsModule(extra) && IsModule(pat) && !Contains(a + c, pat)
    ensures RemoveAll(a + extra + c, pat) == if pat == extra then a + c else a + extra + c
  {
    var s := a + extra + c;
    forall j: nat ensures !At(a, pat, j) && !At(c, pat, j) {
      NoneInParts(a, c, pat, j);
    }
    if pat == extra {
      assert s[|a|..|a| + |pat|] == pat;
      assert At(s, pat, |a|);
      assert Find(s, pat).Some?;
      OnlyModule(a, extra, c, pat, Find(s, pat).value);
      assert s[..|a|] == a && s[|a| + |pat|..] == c;
      FindNone(c, pat);
      RemoveNothing(c, pat);
    } else {
      forall j: nat ensures !At(s, pat, j) {
        if At(s, pat, j) {
          OnlyModule(a, extra, c, pat, j);
          assert false;
        }
      }
      FindNone(s, pat);
      RemoveNothing(s, pat);
    }
  }

  /** Naming a protocol module anywhere in a rule that names none does not change the normal form. */
  lemma ProtocolModuleIgnored(a: string, c: string, extra: string)
    requires extra == TCP_MODULE || extra == UDP_MODULE
    requires !Contains(a + c, TCP_MODULE) && !Contains(a + c, UDP_MODULE)
    ensures NormalizeRule(a + extra + c) == NormalizeRule(a + c)
  {
    ModulesAre();
    assert TCP_MODULE[4] != UDP_MODULE[4];
    hide RemoveAll, Contains, IsModule, Sort, Pairs, Join;
    RemoveModule(a, extra, c, TCP_MODULE);
    RemoveModule(a, extra, c, UDP_MODULE);
    RemoveNothing(a + c, TCP_MODULE);
    RemoveNothing(a + c, UDP_MODULE);
    assert Clean(a + extra + c) == Clean(a + c);
    SameCleanText(a + extra + c, a + c);
  }

  lemma SameCleanText(a: string, b: string)
    requires Clean(a) == Clean(b)
    ensures NormalizeRule(a) == NormalizeRule(b)
  {
    hide Clean, Words, Sort, PairTexts;
  }

  lemma RawOfLine(options: seq<string>)
    requires forall t :: t in options ==> IsPair(t)
    ensures RawPairs(Line(options)) == options
  {
    hide Words, IsPair, Line, PairTexts;
    JoinedOptions(options);
    PairTextsOfFlat(options);
  }

  lemma OneOrTwo(x: string, y: string)
    ensures Line([x]) == x && Line([x, y]) == x + " " + y
  {
    JoinTwo(x, y);
  }

  /** Cleaning eats the front of a longer module name, so that what is compared is not what was printed. */
  lemma LongerModuleMisread(protocol: string, suffix: string)
    requires IsToken(protocol) && IsToken(suffix)
    requires !Contains("-p " + protocol + suffix, TCP_MODULE) && !Contains("-p " + protocol + suffix, UDP_MODULE)
    ensures Pairs("-p " + protocol + TCP_MODULE + suffix) == ["-p " + protocol + suffix]
    ensures !WholeModules("-p " + protocol + TCP_MODULE + suffix)
  {
    hide *;
    SuffixLong(suffix);
    LongerParts(protocol, suffix);
    LongerPairs(protocol, suffix);
    LongerIsNoModule(protocol, suffix);
    CleanOnce("-p " + protocol, suffix);
    PairsAreCleaned("-p " + protocol + TCP_MODULE + suffix);
    MisreadOptions("-p " + protocol, TCP_OPTION + suffix, "-p " + protocol + suffix, "-p " + protocol + TCP_MODULE + suffix);
  }

  lemma SuffixLong(suffix: string)
    requires IsToken(suffix)
    ensures suffix != ""
  {
  }

  lemma LongerParts(protocol: string, suffix: string)
    ensures ("-p " + protocol) + " " + (TCP_OPTION + suffix) == "-p " + protocol + TCP_MODULE + suffix
  {
    ModuleTexts();
    hide *;
    Glued("-p " + protocol, TCP_OPTION, suffix);
  }

  lemma Glued(a: string, b: string, c: string)
    ensures a + " " + (b + c) == a + (" " + b) + c
  {
  }

  lemma MisreadOptions(x: string, y: string, z: string, line: string)
    requires IsPair(x) && IsPair(y) && IsPair(z) && line == x + " " + y && Pairs(line) == RawPairs(z)
    requires TCP_OPTION !in [x, y] && UDP_OPTION !in [x, y]
    ensures Pairs(line) == [z] && !WholeModules(line)
  {
    hide *;
    OneOrTwo(x, y);
    OneOrTwo(z, y);
    RawOfLine([x, y]);
    RawOfLine([z]);
    DropNothing([x, y], TCP_OPTION);
    DropNothing([x, y], UDP_OPTION);
    NonModulesAre([x, y]);
    NotWhole(line, [x, y], [z]);
  }

  lemma NonModulesAre(raw: seq<string>)
    ensures NonModules(raw) == Drop(Drop(raw, TCP_OPTION), UDP_OPTION)
  {
  }

  lemma NotWhole(line: string, raw: seq<string>, cleaned: seq<string>)
    requires RawPairs(line) == raw && Pairs(line) == cleaned && NonModules(raw) == raw && raw != cleaned
    ensures !WholeModules(line)
  {
    hide RawPairs, Pairs, NonModules;
  }

  lemma LongerPairs(protocol: string, suffix: string)
    requires IsToken(protocol) && IsToken(suffix)
    ensures IsPair("-p " + protocol) && IsPair(TCP_OPTION + suffix) && IsPair("-p " + protocol + suffix)
  {
    FixedTokens("-p");
    FixedTokens("-m");
    FixedTokens("tcp");
    assert IsToken("tcp" + suffix) && IsToken(protocol + suffix);
    assert "-p " + protocol == "-p" + " " + protocol && "-p " + protocol + suffix == "-p" + " " + (protocol + suffix);
    assert TCP_OPTION + suffix == "-m" + " " + ("tcp" + suffix);
  }

  lemma PairsAreCleaned(line: string)
    ensures Pairs(line) == RawPairs(Clean(line))
  {
  }

  lemma LongerIsNoModule(protocol: string, suffix: string)
    requires suffix != ""
    ensures TCP_OPTION !in ["-p " + protocol, TCP_OPTION + suffix] && UDP_OPTION !in ["-p " + protocol, TCP_OPTION + suffix]
  {
    ModuleTexts();
    assert ("-p " + protocol)[1] == 'p' && TCP_OPTION[1] == 'm' && UDP_OPTION[1] == 'm';
    assert |TCP_OPTION + suffix| > 6;
  }

  lemma CleanOnce(a: string, c: string)
    requires !Contains(a + c, TCP_MODULE) && !Contains(a + c, UDP_MODULE)
    ensures Clean(a + TCP_MODULE + c) == a + c
  {
    ModulesAre();
    hide RemoveAll, Contains, IsModule;
    RemoveModule(a, TCP_MODULE, c, TCP_MODULE);
    RemoveNothing(a + c, UDP_MODULE);
  }
}
