/**
 The privileged network session: one session at a time, its temporary firewall rules, and an environment
 that flushes or edits the chain, replaces interfaces and loses callers while the service waits.
 */
module NetworkServices {
  import opened Wrappers
  import opened Text
  import opened RuleText
  import opened Firewall

  // ---------- The kernel ----------

  /** A network interface as found under its name. */
  datatype Link = Link(index: nat, phy: string, group: nat)

  /** The very interface that was validated, on its radio and with our tag. */
  predicate Tagged(links: map<string, Link>, interface: GroupInterface) {
    interface.name in links && links[interface.name] == Link(interface.index, interface.phy, 0x574644)
  }

  /**
   How the chain came to hold what it holds: as we last left it, flushed or removed since, edited since,
   or written by a command of ours whose success nobody learned of.
   */
  datatype Drift = Untouched | Flushed | Edited | Unacknowledged

  const NEW_CHAIN := "-N " + CHAIN

  /** Nothing is allowed in: the chain is absent or has no rule. */
  predicate NoRules(chain: Option<seq<string>>) {
    chain.Some? ==> RulesOf(chain.value) == []
  }

  /** The chain as printed compares equal to the session's rules. */
  predicate Holds(chain: Option<seq<string>>, rules: Rules) {
    && chain.Some?
    && RuleLines(rules).Success?
    && NormalRules(chain.value) == Normalized(RuleLines(rules).value)
  }

  /** As the kernel prints a chain it was given: every rule with whole protocol modules beside their protocol. */
  predicate Prints(chain: Option<seq<string>>, rules: Rules) {
    Holds(chain, rules) && forall line :: line in RulesOf(chain.value) ==> WholeModules(line)
  }

  class Kernel {
    /** What `iptables -S waycast-input` prints, or that there is no such chain. */
    var chain: Option<seq<string>>
    var hook: bool
    var links: map<string, Link>
    /** Whether, for the time being, nobody interferes and no command fails. */
    var calm: bool
    ghost var drift: Drift
    /** How often our commands changed the chain, and how often others edited it. */
    ghost var writes: nat
    ghost var edits: nat

    constructor ()
    {
      chain, hook, links, calm, drift, writes, edits := None, false, map[], false, Flushed, 0, 0;
    }

    /** Only others acted. */
    twostate predicate OnlyOthers()
      reads this
    {
      && writes == old(writes) && calm == old(calm) && edits >= old(edits)
      && ((chain == old(chain) && drift == old(drift)) || Disturbed())
    }

    /** Others have flushed the chain, or edited it, in the meantime. */
    twostate predicate Disturbed()
      reads this
    {
      (drift.Flushed? && NoRules(chain)) || (drift.Edited? && edits > old(edits))
    }

    /** The chain holds these rules, unless others have acted in the meantime. */
    twostate predicate Loaded(rules: Rules, cause: Drift)
      reads this
    {
      edits >= old(edits) && ((drift == cause && Prints(chain, rules)) || Disturbed())
    }

    /** In calm times nothing changes by itself. */
    twostate predicate Still()
      reads this
    {
      && calm == old(calm)
      && (calm ==> chain == old(chain) && hook == old(hook) && links == old(links) && drift == old(drift) && edits == old(edits))
    }

    /** The chain counts as edited only if it did before or others have edited it in the meantime. */
    twostate predicate Accounted()
      reads this
    {
      edits >= old(edits) && (drift.Edited? ==> old(drift.Edited?) || edits > old(edits))
    }

    /** Whether a command runs and succeeds. */
    method Succeeds() returns (ok: bool)
      ensures calm ==> ok
    {
      ok := *;
      ok := ok || calm;
    }

    /** What others do while the service waits. */
    method Environment()
      modifies this
      ensures OnlyOthers() && Still()
    {
      if calm {
        return;
      }
      var flush: bool, edit: bool, remove: bool := *, *, *;
      if flush {
        chain := if remove then None else Some([NEW_CHAIN]);
        drift := Flushed;
        EmptyChain();
      }
      if edit {
        var lines: seq<string> := *;
        chain := Some(lines);
        drift, edits := Edited, edits + 1;
      }
      hook := *;
      links := *;
    }

    /** What a process that died in the middle of an operation leaves behind. */
    method Interrupt()
      modifies this
      ensures calm == old(calm) && edits == old(edits)
    {
      var lines: seq<string>, remove: bool := *, *;
      chain := if remove then None else Some(lines);
      drift := Unacknowledged;
    }

    predicate IdentityMatches(interface: GroupInterface)
      reads this
    {
      interface.name in links && links[interface.name].index == interface.index && links[interface.name].phy == interface.phy
    }

    predicate Exists(interface: GroupInterface)
      reads this
    {
      IdentityMatches(interface) && links[interface.name].group == DEVICE_GROUP
    }

    /** `iptables -C ufw-before-input -j waycast-input`. */
    method EnsureHook() returns (ok: bool)
      modifies this
      ensures OnlyOthers() && Still()
      ensures (ok ==> hook) && (calm && hook ==> ok)
    {
      Environment();
      var run := Succeeds();
      ok := run && hook;
    }

    /** `iptables -S waycast-input`. */
    method List() returns (printed: Option<seq<string>>)
      modifies this
      ensures OnlyOthers() && Still()
      ensures (printed.Some? ==> printed == chain) && (calm ==> printed == chain)
    {
      Environment();
      var run := Succeeds();
      printed := if run then chain else None;
    }

    /**
     `iptables-restore --noflush` of a transaction that flushes the chain and adds the rules: all or nothing,
     refused when the chain is absent. The kernel prints rules in an order of its own and names protocol modules.
     */
    method Restore(rules: Rules, lines: seq<string>) returns (ok: bool)
      requires RuleLines(rules) == Success(lines)
      modifies this
      ensures ok ==> RuleLines(rules).Success? && Loaded(rules, Untouched)
      ensures !ok ==> OnlyOthers() || Loaded(rules, Unacknowledged)
      ensures calm ==> if ok then drift.Untouched? && Prints(chain, rules) else OnlyOthers()
      ensures edits >= old(edits) && calm == old(calm)
      ensures calm ==> edits == old(edits) && (ok <==> old(chain).Some?) && hook == old(hook) && links == old(links)
    {
      hide RuleLines, NormalRules, Normalized, RulesOf, WholeModules;
      Environment();
      var accepted := Succeeds();
      if chain.None? || !accepted {
        return false;
      }
      var printed: seq<string> := *;
      if !Prints(Some(printed), rules) {
        printed := lines;
        LinesAreRules(rules);
        NormalRulesOfLines(lines);
        LinesAreWhole(rules);
      }
      chain, writes := Some(printed), writes + 1;
      ok := Succeeds();
      drift := if ok then Untouched else Unacknowledged;
      Environment();
    }

    /** No rule is left, unless others have edited the chain in the meantime. */
    twostate predicate Emptied()
      reads this
    {
      !drift.Unacknowledged? && ((!drift.Edited? && NoRules(chain)) || (drift.Edited? && edits > old(edits)))
    }

    /** `firewall::cleanup`: flush the chain if there is one. */
    method Cleanup() returns (ok: bool)
      modifies this
      ensures ok ==> Emptied()
      ensures edits >= old(edits) && calm == old(calm) && (calm ==> ok && NoRules(chain) && edits == old(edits))
      ensures calm ==> links == old(links) && hook == old(hook)
    {
      Environment();
      var listed := Succeeds();
      if !listed {
        return false;
      }
      if chain.None? {
        drift := Flushed;
      } else {
        Environment();
        var flushed := Succeeds();
        if chain.None? || !flushed {
          return false;
        }
        EmptyChain();
        chain, writes, drift := Some([NEW_CHAIN]), writes + 1, Untouched;
        var reported := Succeeds();
        if !reported {
          return false;
        }
      }
      Environment();
      return true;
    }

    /** Tagging the interface with the reserved device group. */
    method Claim(interface: GroupInterface) returns (ok: bool)
      modifies this
      ensures OnlyOthers() && (calm ==> edits == old(edits))
      ensures ok ==> Exists(interface)
      ensures calm ==> (ok <==> exists group :: group in {0, 0x574644} && interface.name in old(links)
                                                && old(links)[interface.name] == Link(interface.index, interface.phy, group))
      ensures calm ==> links == if ok then old(links)[interface.name := Link(interface.index, interface.phy, 0x574644)] else old(links)
    {
      if !IdentityMatches(interface) {
        return false;
      }
      var group := links[interface.name].group;
      if group != 0 && group != DEVICE_GROUP {
        return false;
      }
      Environment();
      var run := Succeeds();
      if !run || interface.name !in links {
        return false;
      }
      links := links[interface.name := links[interface.name].(group := DEVICE_GROUP)];
      Environment();
      ok := Exists(interface);
    }

    /** `Rules::apply`. */
    method Apply(rules: Rules) returns (ok: bool)
      modifies this
      ensures ok ==> RuleLines(rules).Success? && Loaded(rules, Untouched)
      ensures !ok ==> OnlyOthers() || Loaded(rules, Unacknowledged)
      ensures calm ==> if ok then drift.Untouched? && Prints(chain, rules) else OnlyOthers()
      ensures edits >= old(edits) && calm == old(calm)
      ensures calm ==> edits == old(edits) && (ok <==> old(Tagged(links, rules.interface) && hook && chain.Some?) && RuleLines(rules).Success?)
      ensures calm ==> links == old(links) && hook == old(hook)
    {
      hide RuleLines, NormalRules, Normalized, RulesOf;
      if !Exists(rules.interface) {
        return false;
      }
      ok := EnsureHook();
      if !ok {
        return;
      }
      var lines := Render(rules);
      if lines.Failure? {
        return false;
      }
      ok := Restore(rules, lines.value);
    }

    /** `Rules::intact`. */
    method Intact(rules: Rules) returns (ok: bool)
      modifies this
      ensures OnlyOthers() && Still()
      ensures ok ==> Holds(chain, rules)
      ensures calm ==> (ok <==> old(Tagged(links, rules.interface) && hook && Holds(chain, rules)))
    {
      hide RuleLines, NormalRules, Normalized, RulesOf;
      if !Exists(rules.interface) {
        return false;
      }
      ok := EnsureHook();
      if !ok {
        return;
      }
      var printed := List();
      if printed.None? {
        return false;
      }
      ok := Unchanged(printed.value, rules);
    }
  }

  lemma EmptyChain()
    ensures RulesOf([NEW_CHAIN]) == []
  {
    assert !("-A " <= NEW_CHAIN) by {
      assert NEW_CHAIN[1] != "-A "[1];
    }
    assert [NEW_CHAIN][1..] == [];
  }

  // ---------- Sockets handed over by the caller ----------

  const SOURCE_RTSP_PORT: Port := 7236

  datatype SocketKind = Stream | Datagram | OtherKind

  datatype Endpoint = Endpoint(ip: Ipv4, port: Port)

  /** A socket with its local and peer IPv4 addresses, where it has them. */
  datatype Socket = Socket(kind: SocketKind, local: Option<Endpoint>, peer: Option<Endpoint>)

  datatype Sockets = Sockets(control: Socket, rtp: Socket, rtcp: Socket)

  datatype SocketError =
    | WrongKind | NotIpv4 | NoLocalAddress | NoGroupOwner
    | ForeignAddress | WrongControlPort | InvalidPeer | PeerOutsideGroup | PeerNotGroupOwner | BadMediaPorts

  function ValidateAddresses(local: Ipv4, go: Ipv4, groupOwner: bool, rtspPort: Port,
                             control: Endpoint, peer: Endpoint, rtp: Endpoint, rtcp: Endpoint): Result<(), SocketError>
  {
    if control.ip != local || rtp.ip != local || rtcp.ip != local then Failure(ForeignAddress)
    else if control.port != SOURCE_RTSP_PORT && peer.port != rtspPort then Failure(WrongControlPort)
    else if || peer.ip == local || peer.ip.a == 127 || 224 <= peer.ip.a < 240 || peer.ip == Ipv4(0, 0, 0, 0)
            || peer.ip.d == 0 || peer.ip.d == 255 then Failure(InvalidPeer)
    else if groupOwner && (peer.ip.a != local.a || peer.ip.b != local.b || peer.ip.c != local.c) then Failure(PeerOutsideGroup)
    else if !groupOwner && peer.ip != go then Failure(PeerNotGroupOwner)
    else if rtp.port < 1024 || rtp.port % 2 != 0 || rtp.port + 1 != rtcp.port then Failure(BadMediaPorts)
    else Success(())
  }

  function ValidateSockets(session: Session, sockets: Sockets): Result<(), SocketError> {
    if !sockets.control.kind.Stream? || !sockets.rtp.kind.Datagram? || !sockets.rtcp.kind.Datagram? then Failure(WrongKind)
    else if sockets.control.local.None? || sockets.control.peer.None? || sockets.rtp.local.None? || sockets.rtcp.local.None? then
      Failure(NotIpv4)
    else if session.rules.local.None? then Failure(NoLocalAddress)
    else if session.goIp.None? || ParseIp(session.goIp.value).None? then Failure(NoGroupOwner)
    else ValidateAddresses(session.rules.local.value, ParseIp(session.goIp.value).value, session.rules.groupOwner, session.sinkPort,
                           sockets.control.local.value, sockets.control.peer.value, sockets.rtp.local.value, sockets.rtcp.local.value)
  }

  // ---------- The session ----------

  datatype Session = Session(owner: string, goIp: Option<string>, sinkPort: Port, rules: Rules, sockets: Option<Sockets>)

  /** The session once its media sockets are authorized; port zero means that the sink sends no RTCP. */
  function Authorized(session: Session, sockets: Sockets, sinkRtcp: Port): Session
    requires ValidateSockets(session, sockets).Success?
  {
    var rtcp := if sinkRtcp != 0 then Some((sockets.rtcp.local.value.port, sinkRtcp)) else None;
    session.(rules := session.rules.(peer := Some(sockets.control.peer.value.ip), rtcp := rtcp), sockets := Some(sockets))
  }

  /** An address that a sink can have: not our own, no loopback, multicast or unspecified one, and not at an edge of its /24. */
  predicate PlausiblePeer(peer: Ipv4, local: Ipv4) {
    peer != local && peer.a != 127 && peer.a / 16 != 14 && 1 <= peer.d <= 254
  }

  /** In our own group the sink is a neighbour, otherwise it is the group owner the network manager reported. */
  predicate InGroup(session: Session, peer: Ipv4, local: Ipv4) {
    if session.rules.groupOwner then peer.(d := local.d) == local
    else session.goIp.Some? && ParseIp(session.goIp.value) == Some(peer)
  }

  /** The sockets that can be handed over: one connection with the sink on an RTSP port, and an even media port with its neighbour. */
  predicate Acceptable(session: Session, sockets: Sockets) {
    && sockets.control.kind == Stream && sockets.rtp.kind == sockets.rtcp.kind == Datagram
    && sockets.control.local.Some? && sockets.control.peer.Some? && sockets.rtp.local.Some? && sockets.rtcp.local.Some?
    && session.rules.local.Some? && session.goIp.Some? && ParseIp(session.goIp.value).Some?
    && var local := session.rules.local.value;
       var (control, peer, rtp, rtcp) :=
         (sockets.control.local.value, sockets.control.peer.value, sockets.rtp.local.value, sockets.rtcp.local.value);
       && (forall e :: e in [control, rtp, rtcp] ==> e.ip == local)
       && (control.port == 7236 || peer.port == session.sinkPort)
       && PlausiblePeer(peer.ip, local) && InGroup(session, peer.ip, local)
       && rtp.port >= 1024 && rtp.port % 2 == 0 && rtcp.port == rtp.port + 1
  }

  /** Main result: exactly the acceptable sockets pass, a zero address being at the edge of its network anyway. */
  lemma SocketsAccepted(session: Session, sockets: Sockets)
    ensures ValidateSockets(session, sockets).Success? <==> Acceptable(session, sockets)
  {
    hide ParseIp;
    if ValidateSockets(session, sockets).Success? {
      var all := [sockets.control.local.value, sockets.rtp.local.value, sockets.rtcp.local.value];
      assert forall e :: e in all ==> e == all[0] || e == all[1] || e == all[2];
    }
    if Acceptable(session, sockets) {
      var all := [sockets.control.local.value, sockets.rtp.local.value, sockets.rtcp.local.value];
      assert all[0] in all && all[1] in all && all[2] in all;
    }
  }

  /** What is pinned: local sockets on the session's address, an even media port with its odd neighbour, a plausible peer. */
  predicate Pinned(session: Session, sockets: Sockets) {
    && sockets.control.kind.Stream? && sockets.rtp.kind.Datagram? && sockets.rtcp.kind.Datagram?
    && sockets.control.local.Some? && sockets.control.peer.Some? && sockets.rtp.local.Some? && sockets.rtcp.local.Some?
    && session.rules.local.Some?
    && var local := session.rules.local.value;
       var peer := sockets.control.peer.value.ip;
       && sockets.control.local.value.ip == sockets.rtp.local.value.ip == sockets.rtcp.local.value.ip == local
       && session.rules.peer == Some(peer)
       && peer != local
       && 1024 <= sockets.rtp.local.value.port
       && sockets.rtp.local.value.port % 2 == 0
       && sockets.rtcp.local.value.port == sockets.rtp.local.value.port + 1
       && (session.rules.rtcp.Some? ==> session.rules.rtcp.value.0 == sockets.rtcp.local.value.port && session.rules.rtcp.value.1 != 0)
       && if session.rules.groupOwner then peer.(d := 0) == local.(d := 0) && 0 < peer.d < 255
          else session.goIp.Some? && ParseIp(session.goIp.value) == Some(peer)
  }

  /** What every stored session satisfies. */
  predicate SessionOk(session: Session) {
    && RuleLines(session.rules).Success?
    && session.rules.local.Some?
    && session.rules.rtsp == SOURCE_RTSP_PORT
    && (session.sockets.Some? <==> session.rules.peer.Some?)
    && (session.rules.rtcp.Some? ==> session.sockets.Some?)
    && (session.sockets.Some? ==> Pinned(session, session.sockets.value))
  }

  /** How the session record and the chain agree whenever no operation holds the lock. */
  ghost predicate Agreement(session: Option<Session>, chain: Option<seq<string>>, drift: Drift) {
    match session
    case None => !drift.Unacknowledged? && (drift.Edited? || NoRules(chain))
    case Some(session) =>
      && SessionOk(session)
      && (drift.Untouched? ==> Prints(chain, session.rules))
      && (drift.Flushed? ==> NoRules(chain))
      && (drift.Unacknowledged? ==> HoldsAttempt(chain, session))
  }

  /** The chain holds the rules of some authorization of validated sockets for this session. */
  ghost predicate HoldsAttempt(chain: Option<seq<string>>, session: Session) {
    exists sockets, sinkRtcp :: Attempt(chain, session, sockets, sinkRtcp)
  }

  predicate Attempt(chain: Option<seq<string>>, session: Session, sockets: Sockets, sinkRtcp: Port) {
    ValidateSockets(session, sockets).Success? && Prints(chain, Authorized(session, sockets, sinkRtcp).rules)
  }

  /**
   Main result, packet by packet: without a session nothing is let in, and with one exactly the packets of its
   rules, unless others have flushed or edited the chain since; after a command that took effect and still reported
   failure, exactly the packets of one authorization of validated sockets.
   */
  lemma AgreementMeans(session: Option<Session>, chain: Option<seq<string>>, drift: Drift, p: Packet)
    requires Agreement(session, chain, drift)
    ensures drift.Flushed? ==> !LetsIn(chain, p)
    ensures drift.Untouched? ==> (LetsIn(chain, p) <==> session.Some? && Described(session.value.rules, p))
    ensures drift.Unacknowledged? ==>
              && session.Some?
              && exists sockets, sinkRtcp ::
                   && Attempt(chain, session.value, sockets, sinkRtcp)
                   && (LetsIn(chain, p) <==> Described(Authorized(session.value, sockets, sinkRtcp).rules, p))
  {
    hide RuleLines, NormalRules, Normalized, RulesOf, Described, SessionOk, ValidateSockets, WholeModules;
    if drift.Untouched? && session.Some? {
      IntactChainAdmits(chain.value, session.value.rules, p);
    }
    if drift.Unacknowledged? && session.Some? {
      var sockets, sinkRtcp :| Attempt(chain, session.value, sockets, sinkRtcp);
      IntactChainAdmits(chain.value, Authorized(session.value, sockets, sinkRtcp).rules, p);
    }
  }

  /** The live chain admits the packet. */
  predicate LetsIn(chain: Option<seq<string>>, p: Packet) {
    chain.Some? && ChainAdmits(RulesOf(chain.value), p)
  }

  /** Authorizing validated sockets yields a session in which exactly the pinned sockets' flow can be named. */
  lemma AuthorizedIsOk(session: Session, sockets: Sockets, sinkRtcp: Port)
    requires SessionOk(session) && ValidateSockets(session, sockets).Success?
    ensures SessionOk(Authorized(session, sockets, sinkRtcp))
  {
    hide Options, Line, LineTexts, ValidName, ParseIp;
  }

  /**
   Main result: after authorizing sockets the session's rules describe exactly DHCP, RTSP of this sink to our port, and,
   when the sink names an RTCP port, RTCP of this sink from there to the port beside our media port.
   */
  lemma AuthorizedDescribes(session: Session, sockets: Sockets, sinkRtcp: Port, p: Packet)
    requires SessionOk(session) && ValidateSockets(session, sockets).Success?
    ensures var next, peer, media := Authorized(session, sockets, sinkRtcp), sockets.control.peer.value.ip, sockets.rtp.local.value;
            && (next.owner, next.goIp, next.sinkPort, next.sockets) == (session.owner, session.goIp, session.sinkPort, Some(sockets))
            && (Described(next.rules, p)
                <==> && p.interface == session.rules.interface.name && p.group == 0x574644
                     && (|| (p.protocol.Udp? && (p.sport, p.dport) == (67, 68))
                         || (session.rules.groupOwner && p.protocol.Udp? && (p.sport, p.dport) == (68, 67))
                         || (p.src == peer && p.dst == media.ip
                             && (|| (p.protocol.Tcp? && p.dport == 7236)
                                 || (p.protocol.Udp? && sinkRtcp != 0 && (p.sport, p.dport) == (sinkRtcp, media.port + 1))))))
  {
    hide ParseIp, RuleLines;
  }

  // ---------- The service ----------

  datatype SessionInfo = SessionInfo(interface: string, localIp: string, goIp: string, rtspPort: Port)

  datatype ServiceError =
    | InvalidRadio | InvalidPeerAddress | Denied | Busy | AlreadyActive | HookMissing | SetupFailed
    | NoSession | NotOwner | BadSockets(error: SocketError) | FirewallFailed | Exited

  /** What the network manager learned about the sink: its addresses and the port it advertises. */
  datatype Connection = Connection(interface: string, ip: Option<string>, goIp: Option<string>, rtspPort: Port)

  predicate PeerFormat(peer: string) {
    |peer| == 17 && forall c :: c in peer ==> '0' <= c <= '9' || 'a' <= c <= 'f' || 'A' <= c <= 'F' || c == ':'
  }

  /** The interface is there, tagged, and belongs to the selected radio. */
  predicate OnRadio(links: map<string, Link>, interface: GroupInterface, radio: string) {
    Tagged(links, interface) && radio in links && links[radio].phy == interface.phy
  }

  lemma HexDigits(peer: string)
    ensures PeerFormat(peer) <==> |peer| == 17 && forall c :: c in peer ==> c == ':' || DigitValue(c, 16).Some?
  {
  }

  /** The data interfaces of Wi-Fi Direct groups. */
  predicate IsGroupName(name: string) {
    "p2p-" <= name || name == "p2p0"
  }

  class NetworkService {
    const kernel: Kernel
    var session: Option<Session>
    var exited: bool

    ghost predicate Valid()
      reads this, kernel
    {
      !exited ==> Agreement(session, kernel.chain, kernel.drift)
    }

    /** Start-up removes what a crashed process left, before the service can be called. */
    constructor (kernel: Kernel)
      modifies kernel
      ensures this.kernel == kernel && session.None? && Valid()
      ensures !exited ==> kernel.Emptied()
      ensures kernel.calm == old(kernel.calm) && kernel.edits >= old(kernel.edits)
      ensures kernel.calm ==> !exited && NoRules(kernel.chain) && kernel.edits == old(kernel.edits)
    {
      this.kernel, session, exited := kernel, None, false;
      new;
      ClearRules();
    }

    /** `clear_rules`: the process exits when the rules cannot be removed. */
    method ClearRules()
      modifies `exited, kernel
      ensures !exited ==> !old(exited) && kernel.Emptied()
      ensures kernel.edits >= old(kernel.edits) && kernel.calm == old(kernel.calm)
      ensures kernel.calm ==> exited == old(exited) && NoRules(kernel.chain) && kernel.edits == old(kernel.edits)
    {
      var ok := kernel.Cleanup();
      if !ok {
        exited := true;
      }
    }

    /** `close_session`. */
    method CloseSession()
      requires session.Some? && !exited
      modifies this, kernel
      ensures session.None? && Valid()
      ensures !exited ==> kernel.Emptied()
      ensures kernel.calm == old(kernel.calm) && kernel.edits >= old(kernel.edits)
      ensures kernel.calm ==> !exited && NoRules(kernel.chain) && kernel.edits == old(kernel.edits)
    {
      session := None;
      var cleared := kernel.Cleanup();
      kernel.Environment();
      if !cleared {
        exited := true;
      }
    }

    /**
     Group set-up up to the point where the interface has its first rules: it can fail or be abandoned (time-out,
     the caller leaving) at every step, also after the rules took effect.
     */
    method Prepare(radio: string) returns (connection: Option<Connection>, prepared: Option<Rules>)
      modifies kernel
      ensures prepared.Some? ==> prepared.value.rtsp == SOURCE_RTSP_PORT && prepared.value.local.None?
                                 && prepared.value.peer.None? && prepared.value.rtcp.None?
      ensures kernel.calm == old(kernel.calm) && kernel.edits >= old(kernel.edits) && (kernel.calm ==> kernel.edits == old(kernel.edits))
      ensures connection.Some? && prepared.Some? ==> connection.value.interface == prepared.value.interface.name
      ensures connection.Some? && prepared.Some? ==> IsGroupName(connection.value.interface) && connection.value.rtspPort >= 1024
      ensures kernel.calm && connection.Some? && prepared.Some? ==> OnRadio(kernel.links, prepared.value.interface, radio)
    {
      connection, prepared := None, None;
      kernel.Environment();
      var found: bool, sink: Connection, groupOwner: bool := *, *, *;
      if !found || sink.rtspPort < 1024 {
        return;
      }
      kernel.Environment();
      var started: bool := *;
      if !started || !ValidName(radio) || !ValidName(sink.interface) || !IsGroupName(sink.interface)
         || radio !in kernel.links || sink.interface !in kernel.links {
        return;
      }
      var interface := GroupInterface(sink.interface, kernel.links[sink.interface].index, kernel.links[radio].phy);
      if !kernel.IdentityMatches(interface) {
        return;
      }
      var claimed := kernel.Claim(interface);
      if !claimed {
        return;
      }
      var rules := Rules(interface, groupOwner, SOURCE_RTSP_PORT, None, None, None);
      var applied := kernel.Apply(rules);
      if !applied {
        return;
      }
      kernel.Environment();
      var stored: bool, connected: bool := *, *;
      prepared := if stored then Some(rules) else None;
      connection := if connected then Some(sink) else None;
    }

    method BeginSession(caller: string, radio: string, peer: string) returns (r: Result<SessionInfo, ServiceError>)
      requires Valid() && !exited
      modifies this, kernel
      ensures Valid()
      ensures r.Failure? ==> session == old(session)
      ensures kernel.calm == old(kernel.calm) && (kernel.calm ==> !exited)
      ensures kernel.edits >= old(kernel.edits) && (!exited ==> kernel.Accounted()) && (kernel.calm ==> kernel.edits == old(kernel.edits))
      ensures old(session).Some? ==> r.Failure? && !exited && kernel.OnlyOthers()
      ensures r.Failure? && !exited ==> kernel.OnlyOthers() || (old(session).None? && kernel.Emptied())
      ensures r.Failure? && kernel.calm ==> kernel.chain == old(kernel.chain) || NoRules(kernel.chain)
      ensures r.Success? ==> session.Some? && kernel.Loaded(session.value.rules, Untouched)
      ensures r.Success? && kernel.calm ==> kernel.drift.Untouched? && Holds(kernel.chain, session.value.rules)
      ensures r.Success? && kernel.calm ==> OnRadio(kernel.links, session.value.rules.interface, radio)
      ensures !ValidName(radio) ==> r == Failure(InvalidRadio) && kernel.OnlyOthers()
      ensures ValidName(radio) && (|peer| != 17 || exists c :: c in peer && c != ':' && DigitValue(c, 16).None?) ==>
                r == Failure(InvalidPeerAddress) && kernel.OnlyOthers()
      ensures r.Success? ==> && !exited && session.Some?
                             && session.value.owner == caller
                             && session.value.sockets.None?
                             && session.value.rules.local.Some? && session.value.goIp.Some?
                             && ("p2p-" <= session.value.rules.interface.name || session.value.rules.interface.name == "p2p0")
                             && session.value.sinkPort >= 1024 && session.value.rules.rtsp == 7236
                             && r.value == SessionInfo(session.value.rules.interface.name, IpText(session.value.rules.local.value),
                                                       if session.value.goIp.Some? then session.value.goIp.value else "", session.value.sinkPort)
    {
      hide RuleLines, NormalRules, Normalized, RulesOf, WholeModules, ParseIp, IpText, ValidName, PeerFormat, Line;
      if !ValidName(radio) {
        return Failure(InvalidRadio);
      }
      HexDigits(peer);
      if !PeerFormat(peer) {
        return Failure(InvalidPeerAddress);
      }
      kernel.Environment();
      var allowed: bool, locked: bool := *, *;
      if !allowed {
        return Failure(Denied);
      }
      if !locked {
        return Failure(Busy);
      }
      if session.Some? {
        return Failure(AlreadyActive);
      }
      var hooked := kernel.EnsureHook();
      if !hooked {
        return Failure(HookMissing);
      }
      ClearRules();
      if exited {
        return Failure(Exited);
      }
      var connection, prepared := Prepare(radio);
      if connection.None? || prepared.None? || connection.value.ip.None? || ParseIp(connection.value.ip.value).None? {
        ClearRules();
        return Failure(if exited then Exited else SetupFailed);
      }
      var local := ParseIp(connection.value.ip.value).value;
      var rules := prepared.value.(local := Some(local));
      var applied := kernel.Apply(rules);
      if !applied || connection.value.goIp.None? {
        kernel.Environment();
        ClearRules();
        return Failure(if exited then Exited else SetupFailed);
      }
      session := Some(Session(caller, connection.value.goIp, connection.value.rtspPort, rules, None));
      r := Success(SessionInfo(connection.value.interface, IpText(local), connection.value.goIp.value, connection.value.rtspPort));
      kernel.Environment();
    }

    method AuthorizeMedia(caller: string, sockets: Sockets, sinkRtcp: Port) returns (r: Result<(), ServiceError>)
      requires Valid() && !exited
      modifies this, kernel
      ensures Valid() && !exited
      ensures r.Success? ==> && old(session).Some?
                             && caller == old(session).value.owner
                             && ValidateSockets(old(session).value, sockets).Success?
                             && session == Some(Authorized(old(session).value, sockets, sinkRtcp))
                             && kernel.Loaded(session.value.rules, Untouched)
      ensures r.Success? && kernel.calm ==> kernel.drift.Untouched? && Holds(kernel.chain, session.value.rules)
      ensures r.Failure? ==> session == old(session)
      ensures r.Failure? ==>
                || kernel.OnlyOthers()
                || (&& r.error.FirewallFailed? && !kernel.calm && old(session).Some? && ValidateSockets(old(session).value, sockets).Success?
                    && kernel.Loaded(Authorized(old(session).value, sockets, sinkRtcp).rules, Unacknowledged))
      ensures kernel.edits >= old(kernel.edits) && (!exited ==> kernel.Accounted()) && (kernel.calm ==> kernel.edits == old(kernel.edits))
      ensures old(session).None? ==> r == Failure(NoSession)
      ensures old(session).Some? && caller != old(session).value.owner ==> r == Failure(NotOwner)
      ensures old(session).Some? && caller == old(session).value.owner && ValidateSockets(old(session).value, sockets).Failure? ==>
                r == Failure(BadSockets(ValidateSockets(old(session).value, sockets).error))
      ensures kernel.calm == old(kernel.calm)
      ensures r.Success? ==> Acceptable(old(session).value, sockets)
      ensures (&& kernel.calm && old(session).Some? && caller == old(session).value.owner
               && Acceptable(old(session).value, sockets)
               && old(Tagged(kernel.links, session.value.rules.interface) && kernel.hook && kernel.chain.Some?)) ==> r.Success?
    {
      hide RuleLines, NormalRules, Normalized, RulesOf, ValidateSockets, Acceptable, Pinned;
      kernel.Environment();
      if session.None? {
        return Failure(NoSession);
      }
      var current := session.value;
      if caller != current.owner {
        return Failure(NotOwner);
      }
      var checked := ValidateSockets(current, sockets);
      SocketsAccepted(current, sockets);
      if checked.Failure? {
        return Failure(BadSockets(checked.error));
      }
      AuthorizedIsOk(current, sockets, sinkRtcp);
      var next := Authorized(current, sockets, sinkRtcp);
      var applied := kernel.Apply(next.rules);
      if !applied {
        assert kernel.drift.Unacknowledged? && Prints(kernel.chain, next.rules) ==> Attempt(kernel.chain, current, sockets, sinkRtcp);
        return Failure(FirewallFailed);
      }
      session := Some(next);
      return Success(());
    }

    method EndSession(caller: string) returns (r: Result<(), ServiceError>)
      requires Valid() && !exited
      modifies this, kernel
      ensures Valid()
      ensures old(session).Some? && caller != old(session).value.owner ==>
                r == Failure(NotOwner) && !exited && session == old(session) && kernel.OnlyOthers()
      ensures old(session).None? ==> r == Success(()) && !exited && kernel.OnlyOthers()
      ensures old(session).None? || caller == old(session).value.owner ==> session.None? && (!exited ==> r == Success(()))
      ensures old(session).Some? && caller == old(session).value.owner && !exited ==> kernel.Emptied()
      ensures kernel.calm == old(kernel.calm) && (kernel.calm ==> !exited)
      ensures kernel.calm && old(session).Some? && session.None? ==> NoRules(kernel.chain)
      ensures kernel.edits >= old(kernel.edits) && (!exited ==> kernel.Accounted()) && (kernel.calm ==> kernel.edits == old(kernel.edits))
    {
      kernel.Environment();
      if session.Some? {
        if caller != session.value.owner {
          return Failure(NotOwner);
        }
        CloseSession();
        if exited {
          return Failure(Exited);
        }
      }
      return Success(());
    }

    predicate Owns(caller: string)
      reads this
    {
      session.Some? && session.value.owner == caller
    }

    method SessionAlive(caller: string) returns (alive: bool)
      ensures alive <==> Owns(caller)
    {
      alive := session.Some? && session.value.owner == caller;
    }

    /**
     One round of the supervisor, given whether the lock is free, the owner is still on the bus and the connection is
     active. A session that survives a completed round has a chain that compares equal to its rules at the end of that
     round, and in calm times it survives exactly when it should; rules are never written.
     */
    method Supervise(free: bool, ownerPresent: bool, active: bool) returns (completed: bool)
      requires Valid() && !exited
      modifies this, kernel
      ensures Valid()
      ensures session == old(session) || session.None?
      ensures session.Some? ==> !exited && kernel.OnlyOthers()
      ensures completed <==> free && old(session).Some?
      ensures old(session).Some? && session.None? && !exited ==> kernel.Emptied()
      ensures kernel.calm == old(kernel.calm)
      ensures kernel.calm && old(session).Some? && session.None? ==> NoRules(kernel.chain)
      ensures kernel.edits >= old(kernel.edits) && (!exited ==> kernel.Accounted()) && (kernel.calm ==> kernel.edits == old(kernel.edits))
      ensures completed && session.Some? ==> ownerPresent && active && Holds(kernel.chain, session.value.rules)
      ensures !completed ==> session == old(session) && !exited
      ensures kernel.calm && completed ==> !exited
      ensures kernel.calm && completed && session.Some? ==> ownerPresent && active
      ensures kernel.calm && completed && ownerPresent && active ==>
                session.Some? == old(Tagged(kernel.links, session.value.rules.interface) && kernel.hook && Holds(kernel.chain, session.value.rules))
    {
      hide RuleLines, NormalRules, Normalized, RulesOf;
      kernel.Environment();
      if !free || session.None? {
        return false;
      }
      kernel.Environment();
      var intact := false;
      if ownerPresent && active {
        intact := kernel.Intact(session.value.rules);
      }
      if !intact {
        CloseSession();
      }
      return true;
    }

    /**
     Any call or supervisor round. A caller never learns of another caller's doings: what `SessionAlive` tells it
     changes only by its own calls, by the supervisor and by the end of the process; and a call by somebody else
     than the owner of a session changes neither the session nor the chain.
     */
    method Perform(command: Command)
      requires Valid() && !exited && !command.Kill?
      modifies this, kernel
      ensures Valid()
      ensures !command.Tick? && !exited ==> forall other :: other != command.caller ==> Owns(other) == old(Owns(other))
      ensures !command.Tick? && old(session).Some? && !old(Owns(command.caller)) ==>
                session == old(session) && !exited && kernel.OnlyOthers()
      ensures command.Begin? && Owns(command.caller) && !old(Owns(command.caller)) ==> old(session).None?
      ensures command.Authorize? ==> !exited && Owns(command.caller) == old(Owns(command.caller))
      ensures command.End? && !exited ==> !Owns(command.caller)
      ensures old(session).Some? && session.None? && !exited ==> kernel.Emptied()
      ensures kernel.calm == old(kernel.calm) && (kernel.calm ==> !exited)
      ensures kernel.edits >= old(kernel.edits) && (!exited ==> kernel.Accounted()) && (kernel.calm ==> kernel.edits == old(kernel.edits))
    {
      hide Agreement, Holds, ValidateSockets;
      match command
      case Begin(caller, radio, peer) =>
        var info := BeginSession(caller, radio, peer);
      case Authorize(caller, sockets, sinkRtcp) =>
        var result := AuthorizeMedia(caller, sockets, sinkRtcp);
      case End(caller) =>
        var result := EndSession(caller);
      case Tick(free, ownerPresent, active) =>
        var completed := Supervise(free, ownerPresent, active);
    }
  }

  // ---------- Whole runs ----------

  datatype Command =
    | Begin(caller: string, radio: string, peer: string)
    | Authorize(caller: string, sockets: Sockets, sinkRtcp: Port)
    | End(caller: string)
    | Tick(free: bool, ownerPresent: bool, active: bool)
    | Kill

  /**
   Main result for whole runs: after every sequence of calls, supervisor rounds, process deaths in the middle
   of anything and restarts, the session record and the chain agree unless the process has just exited, and the chain
   counts as edited only if others edited it during the run; when nobody interferes and no command fails, the process
   never exits by itself and without a session the chain has no rules.
   */
  method Run(kernel: Kernel, commands: seq<Command>) returns (service: NetworkService)
    modifies kernel
    ensures service.kernel == kernel && service.Valid()
    ensures kernel.edits >= old(kernel.edits)
    ensures !service.exited && kernel.drift.Edited? ==> kernel.edits > old(kernel.edits)
    ensures !service.exited && service.session.None? && kernel.edits == old(kernel.edits) ==> NoRules(kernel.chain)
    ensures kernel.calm == old(kernel.calm) && (kernel.calm ==> !service.exited && kernel.edits == old(kernel.edits))
  {
    service := new NetworkService(kernel);
    hide NoRules, Agreement;
    for i := 0 to |commands|
      invariant service.kernel == kernel && service.Valid() && fresh(service)
      invariant kernel.edits >= old(kernel.edits)
      invariant !service.exited && kernel.drift.Edited? ==> kernel.edits > old(kernel.edits)
      invariant kernel.calm == old(kernel.calm) && (kernel.calm ==> !service.exited && kernel.edits == old(kernel.edits))
    {
      if service.exited || commands[i].Kill? {
        kernel.Interrupt();
        service := new NetworkService(kernel);
      } else {
        service.Perform(commands[i]);
      }
    }
    Unedited(service.session, kernel.chain, kernel.drift);
  }

  lemma Unedited(session: Option<Session>, chain: Option<seq<string>>, drift: Drift)
    ensures Agreement(session, chain, drift) && session.None? && !drift.Edited? ==> NoRules(chain)
  {
  }
}
