/**
 The record that is kept on disk of the virtual sink or output a session created, and what it is worth after
 crashes and failing commands.
 */
module Breadcrumbs {
  import opened Wrappers
  import opened Text

  // ---------- The text ----------

  type U32 = n: nat | n <= MAX_U32

  datatype Stale = Stale(sinkName: string, moduleIndex: U32, previousDefault: Option<string>, ownerAlive: bool)

  function BreadcrumbText(pid: U32, sinkName: string, moduleIndex: U32, previousDefault: Option<string>): string {
    Digits(pid, 10) + "\n" + (sinkName + "\n" + (Digits(moduleIndex, 10) + "\n"
    + ((if previousDefault.Some? then previousDefault.value else "") + "\n")))
  }

  /** Reads a record; without a leading process id it is one of an earlier format, which nobody owns. */
  function ParseBreadcrumb(content: string, alive: nat -> bool): Option<Stale> {
    var lines := Lines(content);
    if lines == [] then None
    else
      var first := Trim(lines[0]);
      match ParseUnsigned(first, 10, MAX_U32)
      case Some(pid) => if |lines| < 2 then None else ParseRest(Trim(lines[1]), lines[2..], alive(pid))
      case None => ParseRest(first, lines[1..], false)
  }

  function ParseRest(sinkName: string, lines: seq<string>, ownerAlive: bool): Option<Stale> {
    if sinkName == "" || lines == [] then None
    else
      match ParseUnsigned(Trim(lines[0]), 10, MAX_U32)
      case None => None
      case Some(index) =>
        var previous := if |lines| > 1 && Trim(lines[1]) != "" then Some(Trim(lines[1])) else None;
        Some(Stale(sinkName, index, previous, ownerAlive))
  }

  /** A name as it is recorded: not empty, on one line, without white space at its edges. */
  predicate IsName(name: string) {
    name != "" && '\n' !in name && Trimmed(name)
  }

  lemma NameLine(line: string, rest: string)
    requires '\n' !in line && Trimmed(line)
    ensures Lines(line + "\n" + rest) == [line] + Lines(rest) && Trim(line) == line
  {
    LinesCons(line, rest);
    TrimIdentity(line);
  }

  lemma NumberLine(n: nat)
    ensures '\n' !in Digits(n, 10) && Trimmed(Digits(n, 10))
  {
    var digits := Digits(n, 10);
    assert digits[0] in digits && digits[|digits| - 1] in digits;
  }

  lemma FourLines(a: string, b: string, c: string, d: string)
    requires '\n' !in a && Trimmed(a) && '\n' !in b && Trimmed(b) && '\n' !in c && Trimmed(c) && '\n' !in d && Trimmed(d)
    ensures Lines(a + "\n" + (b + "\n" + (c + "\n" + (d + "\n")))) == [a, b, c, d]
  {
    hide Lines, Trimmed;
    assert d + "\n" + "" == d + "\n";
    NoText();
    NameLine(d, "");
    NameLine(c, d + "\n");
    NameLine(b, c + "\n" + (d + "\n"));
    NameLine(a, b + "\n" + (c + "\n" + (d + "\n")));
  }

  lemma NoText()
    ensures Lines("") == []
  {
  }

  /** What is written is read back, with the owner that wrote it. */
  lemma BreadcrumbRoundTrip(pid: U32, sinkName: string, moduleIndex: U32, previousDefault: Option<string>, alive: nat -> bool)
    requires IsName(sinkName) && (previousDefault.Some? ==> IsName(previousDefault.value))
    ensures ParseBreadcrumb(BreadcrumbText(pid, sinkName, moduleIndex, previousDefault), alive)
         == Some(Stale(sinkName, moduleIndex, previousDefault, alive(pid)))
  {
    var previous := if previousDefault.Some? then previousDefault.value else "";
    NumberLine(pid);
    NumberLine(moduleIndex);
    FourLines(Digits(pid, 10), sinkName, Digits(moduleIndex, 10), previous);
    ParsePrinted(pid, 10, 0, MAX_U32);
    ParsePrinted(moduleIndex, 10, 0, MAX_U32);
    TrimIdentity(Digits(pid, 10));
    TrimIdentity(Digits(moduleIndex, 10));
    TrimIdentity(sinkName);
    TrimIdentity(previous);
    hide Lines, Trim, ParseUnsigned, Digits, Trimmed, BreadcrumbText;
    TextIs(pid, sinkName, moduleIndex, previousDefault);
    ParseFour(Digits(pid, 10), sinkName, Digits(moduleIndex, 10), previous, pid, moduleIndex, alive,
              BreadcrumbText(pid, sinkName, moduleIndex, previousDefault));
  }

  lemma TextIs(pid: U32, sinkName: string, moduleIndex: U32, previousDefault: Option<string>)
    ensures BreadcrumbText(pid, sinkName, moduleIndex, previousDefault)
         == Digits(pid, 10) + "\n" + (sinkName + "\n" + (Digits(moduleIndex, 10) + "\n"
            + ((if previousDefault.Some? then previousDefault.value else "") + "\n")))
  {
  }

  lemma ParseFour(a: string, b: string, c: string, d: string, pid: U32, index: U32, alive: nat -> bool, content: string)
    requires Lines(content) == [a, b, c, d] && Trim(a) == a && Trim(b) == b && Trim(c) == c && Trim(d) == d && b != ""
    requires ParseUnsigned(a, 10, MAX_U32) == Some(pid) && ParseUnsigned(c, 10, MAX_U32) == Some(index)
    ensures ParseBreadcrumb(content, alive) == Some(Stale(b, index, if d == "" then None else Some(d), alive(pid)))
  {
    hide Lines, Trim, ParseUnsigned;
    assert [a, b, c, d][2..] == [c, d];
  }

  /** A record cut inside its last number reads as a complete one with another module index. */
  lemma CutRecordMisleads(pid: U32, sinkName: string, index: U32, last: nat, previousDefault: Option<string>, alive: nat -> bool)
    requires IsName(sinkName) && index > 0 && last < 10 && index * 10 + last <= MAX_U32
    ensures var cut := Digits(pid, 10) + "\n" + (sinkName + "\n" + Digits(index, 10));
            && cut <= BreadcrumbText(pid, sinkName, index * 10 + last, previousDefault)
            && ParseBreadcrumb(cut, alive) == Some(Stale(sinkName, index, None, alive(pid)))
  {
    var cut := Digits(pid, 10) + "\n" + (sinkName + "\n" + Digits(index, 10));
    NumberLine(pid);
    NumberLine(index);
    ParsePrinted(pid, 10, 0, MAX_U32);
    ParsePrinted(index, 10, 0, MAX_U32);
    TrimIdentity(Digits(pid, 10));
    TrimIdentity(Digits(index, 10));
    TrimIdentity(sinkName);
    hide *;
    CutIsPrefix(pid, sinkName, index, last, previousDefault);
    CutLines(Digits(pid, 10), sinkName, Digits(index, 10));
    ParseThree(Digits(pid, 10), sinkName, Digits(index, 10), pid, index, alive, cut);
  }

  lemma CutLines(a: string, b: string, c: string)
    requires '\n' !in a && Trimmed(a) && '\n' !in b && Trimmed(b) && '\n' !in c && c != ""
    ensures Lines(a + "\n" + (b + "\n" + c)) == [a, b, c]
  {
    LastUnended(c);
    hide Lines, Trimmed;
    NameLine(b, c);
    NameLine(a, b + "\n" + c);
  }

  lemma CutIsPrefix(pid: U32, sinkName: string, index: U32, last: nat, previousDefault: Option<string>)
    requires index > 0 && last < 10 && index * 10 + last <= MAX_U32
    ensures Digits(pid, 10) + "\n" + (sinkName + "\n" + Digits(index, 10)) <= BreadcrumbText(pid, sinkName, index * 10 + last, previousDefault)
  {
    var digit := LongerNumber(index, last);
    TextIs(pid, sinkName, index * 10 + last, previousDefault);
    hide *;
    PrefixOfText(Digits(pid, 10), sinkName, Digits(index, 10), digit, (if previousDefault.Some? then previousDefault.value else "") + "\n");
  }

  lemma LongerNumber(index: nat, last: nat) returns (digit: string)
    requires index > 0 && last < 10
    ensures Digits(index * 10 + last, 10) == Digits(index, 10) + digit
  {
    DigitsAre(index * 10 + last, 10);
    hide Digits;
    assert (index * 10 + last) / 10 == index && (index * 10 + last) % 10 == last;
    digit := [DIGITS[last]];
  }

  lemma PrefixOfText(a: string, b: string, c: string, d: string, rest: string)
    ensures a + "\n" + (b + "\n" + c) <= a + "\n" + (b + "\n" + ((c + d) + "\n" + rest))
  {
    assert a + "\n" + (b + "\n" + ((c + d) + "\n" + rest)) == a + "\n" + (b + "\n" + c) + (d + "\n" + rest);
  }

  lemma LastUnended(line: string)
    requires line != "" && '\n' !in line
    ensures Lines(line) == [line]
  {
  }

  lemma ParseThree(a: string, b: string, c: string, pid: U32, index: U32, alive: nat -> bool, content: string)
    requires Lines(content) == [a, b, c] && Trim(a) == a && Trim(b) == b && Trim(c) == c && b != ""
    requires ParseUnsigned(a, 10, MAX_U32) == Some(pid) && ParseUnsigned(c, 10, MAX_U32) == Some(index)
    ensures ParseBreadcrumb(content, alive) == Some(Stale(b, index, None, alive(pid)))
  {
    hide Lines, Trim, ParseUnsigned;
    assert [a, b, c][2..] == [c];
  }

  /** The record of a compositor output: the process that created it, and its name. */
  function OutputText(pid: U32, name: string): string {
    Digits(pid, 10) + "\n" + (name + "\n")
  }

  /** The recorded name and whether its owner is alive; a single line is a record of an earlier build. */
  function ParseOutput(content: string, alive: nat -> bool): Option<(string, bool)> {
    var lines := Lines(content);
    if lines == [] then None
    else if |lines| == 1 then if Trim(lines[0]) == "" then None else Some((Trim(lines[0]), false))
    else if Trim(lines[1]) == "" then None
    else
      match ParseUnsigned(Trim(lines[0]), 10, MAX_U32)
      case Some(pid) => Some((Trim(lines[1]), alive(pid)))
      case None => Some((Trim(lines[1]), false))
  }

  /** What is written is read back; a record cut inside its first line names the process id as an output nobody owns. */
  lemma OutputRoundTrip(pid: U32, name: string, alive: nat -> bool)
    requires IsName(name)
    ensures ParseOutput(OutputText(pid, name), alive) == Some((name, alive(pid)))
    ensures ParseOutput(Digits(pid, 10), alive) == Some((Digits(pid, 10), false))
  {
    NumberLine(pid);
    ParsePrinted(pid, 10, 0, MAX_U32);
    TrimIdentity(Digits(pid, 10));
    TrimIdentity(name);
    hide Trim, ParseUnsigned, Digits, Trimmed;
    NoText();
    assert name + "\n" + "" == name + "\n";
    NameLine(name, "");
    NameLine(Digits(pid, 10), name + "\n");
    LastUnended(Digits(pid, 10));
    hide Lines;
    assert [Digits(pid, 10)] + ([name] + []) == [Digits(pid, 10), name];
  }

  /** Records of earlier builds, which name no process, are owned by nobody. */
  lemma EarlierRecords(sinkName: string, index: U32, output: string, alive: nat -> bool)
    requires IsName(sinkName) && ParseUnsigned(sinkName, 10, MAX_U32).None? && IsName(output)
    ensures ParseBreadcrumb(sinkName + "\n" + (Digits(index, 10) + "\n"), alive) == Some(Stale(sinkName, index, None, false))
    ensures ParseOutput(output + "\n", alive) == Some((output, false))
    ensures ParseOutput(sinkName + "\n" + (output + "\n"), alive) == Some((output, false))
  {
    NumberLine(index);
    ParsePrinted(index, 10, 0, MAX_U32);
    hide *;
    TrimIdentity(Digits(index, 10));
    NameParts(sinkName);
    NameParts(output);
    TwoLines(sinkName, Digits(index, 10));
    TwoLines(sinkName, output);
    SingleLine(output);
    EarlierSink(sinkName + "\n" + (Digits(index, 10) + "\n"), sinkName, Digits(index, 10), index, alive);
    EarlierOutput(output + "\n", sinkName + "\n" + (output + "\n"), sinkName, output, alive);
  }

  lemma NameParts(name: string)
    requires IsName(name)
    ensures name != "" && '\n' !in name && Trimmed(name) && Trim(name) == name
  {
    TrimIdentity(name);
  }

  lemma SingleLine(a: string)
    requires '\n' !in a && Trimmed(a)
    ensures Lines(a + "\n") == [a]
  {
    hide Lines, Trimmed;
    NoText();
    assert a + "\n" + "" == a + "\n";
    NameLine(a, "");
  }

  lemma TwoLines(a: string, b: string)
    requires '\n' !in a && Trimmed(a) && '\n' !in b && Trimmed(b)
    ensures Lines(a + "\n" + (b + "\n")) == [a, b]
  {
    hide Lines, Trimmed;
    SingleLine(b);
    NameLine(a, b + "\n");
    assert [a] + [b] == [a, b];
  }

  lemma EarlierSink(content: string, a: string, b: string, index: U32, alive: nat -> bool)
    requires Lines(content) == [a, b] && Trim(a) == a && Trim(b) == b && a != ""
    requires ParseUnsigned(a, 10, MAX_U32).None? && ParseUnsigned(b, 10, MAX_U32) == Some(index)
    ensures ParseBreadcrumb(content, alive) == Some(Stale(a, index, None, false))
  {
    hide Lines, Trim, ParseUnsigned;
    assert [a, b][1..] == [b];
  }

  lemma EarlierOutput(single: string, double: string, a: string, b: string, alive: nat -> bool)
    requires Lines(single) == [b] && Lines(double) == [a, b] && Trim(a) == a && Trim(b) == b && b != ""
    requires ParseUnsigned(a, 10, MAX_U32).None?
    ensures ParseOutput(single, alive) == Some((b, false)) && ParseOutput(double, alive) == Some((b, false))
  {
    hide Lines, Trim, ParseUnsigned;
  }

  // ---------- The machine ----------

  /** Audio sinks and compositor outputs follow the same protocol and differ in how failures are taken. */
  datatype Kind = AudioSink | HyprlandOutput

  datatype Resource = Resource(name: string, index: nat)

  datatype Crumb = Crumb(pid: nat, resource: Resource)

  /** The one running process, and what it created and has yet to clean up. */
  datatype Process = Process(pid: nat, own: Option<Resource>)

  /**
   The world outside the process: the resources that exist, the record on disk, and for the statement of
   the property the resource that was recorded last.
   */
  datatype World = World(resources: set<Resource>, file: Option<Crumb>, latest: Option<Resource>)

  datatype State = State(world: World, process: Option<Process>)

  const NOTHING := State(World({}, None, None), None)

  /** How the listing of existing resources goes: it lists, it cannot be started, or it starts and fails. */
  datatype Check = Lists | NotStarted | Fails

  /** How the commands of one removal go; only audio removal gives up when a command cannot be started. */
  datatype Outcome = Outcome(aborted: bool, removed: bool, check: Check, erasable: bool)

  /** Removing by module index, or by output name. */
  predicate SameTarget(kind: Kind, r: Resource, target: Resource) {
    if kind.AudioSink? then r.index == target.index else r.name == target.name
  }

  function Without(kind: Kind, resources: set<Resource>, target: Resource): set<Resource> {
    set r | r in resources && !SameTarget(kind, r, target)
  }

  predicate Unlisted(resources: set<Resource>, target: Resource) {
    forall r :: r in resources ==> r.name != target.name
  }

  /** Whether the resource counts as gone: an audio listing that fails prints nothing and so shows no sink. */
  predicate ReportedGone(kind: Kind, resources: set<Resource>, target: Resource, check: Check) {
    match check
    case Lists => Unlisted(resources, target)
    case NotStarted => false
    case Fails => kind.AudioSink?
  }

  predicate GivesUp(kind: Kind, outcome: Outcome) {
    kind.AudioSink? && outcome.aborted
  }

  /** Whether a removal deletes the record: whoever the record names. */
  predicate Erases(kind: Kind, resources: set<Resource>, target: Resource, outcome: Outcome) {
    !GivesUp(kind, outcome) && outcome.erasable && (outcome.removed || ReportedGone(kind, resources, target, outcome.check))
  }

  function Removal(kind: Kind, w: World, target: Resource, outcome: Outcome): World {
    if GivesUp(kind, outcome) then w
    else World(if outcome.removed then Without(kind, w.resources, target) else w.resources,
               if Erases(kind, w.resources, target, outcome) then None else w.file,
               w.latest)
  }

  /**
   How the creation of a resource goes. A new output that cannot be identified is rolled back by a guard, with an
   outcome of its own, when the guard's own listing finds it; an unidentified audio sink stays.
   */
  datatype Start = NotCreated | Unidentified(rollback: Option<Outcome>) | Created

  /** How the writing of its record goes. A record that is cut short may still be readable, as another one. */
  datatype Record = Written | Refused | Cut(left: Option<Crumb>)

  datatype Step =
    | Launch(pid: nat)
    | CleanStale(outcome: Outcome)
    | Create(resource: Resource, start: Start, record: Record)
    | Cleanup(outcome: Outcome, again: bool)
    | Crash
    | Lost(resource: Resource)

  /** A new resource has a name and an index of its own, and was never recorded. */
  predicate IsNew(w: World, resource: Resource) {
    (forall r :: r in w.resources ==> r.name != resource.name && r.index != resource.index) && w.latest != Some(resource)
  }

  predicate Enabled(s: State, step: Step) {
    match step
    case Launch(_) => s.process.None?
    case CleanStale(_) => s.process.Some? && s.world.file.Some? && s.world.file.value.pid != s.process.value.pid
    case Create(resource, _, _) => s.process.Some? && s.process.value.own.None? && IsNew(s.world, resource)
    case Cleanup(_, _) => s.process.Some? && s.process.value.own.Some?
    case Crash => true
    case Lost(_) => true
  }

  function Recorded(w: World, pid: nat, resource: Resource, record: Record): World {
    match record
    case Written => w.(file := Some(Crumb(pid, resource)), latest := Some(resource))
    case Refused => w
    case Cut(left) =>
      w.(file := left, latest := if left.Some? && left.value.resource == resource then Some(resource) else w.latest)
  }

  function CreateStep(kind: Kind, s: State, resource: Resource, start: Start, record: Record): State
    requires s.process.Some?
  {
    if start.NotCreated? then s
    else
      var w := s.world.(resources := s.world.resources + {resource});
      if start.Unidentified? then
        s.(world := if kind.HyprlandOutput? && start.rollback.Some? then Removal(kind, w, resource, start.rollback.value) else w)
      else State(Recorded(w, s.process.value.pid, resource, record), Some(s.process.value.(own := Some(resource))))
  }

  /** A clean-up is repeated when it gave up, and for outputs also when a later part of it failed. */
  predicate Repeats(kind: Kind, outcome: Outcome, again: bool) {
    GivesUp(kind, outcome) || (kind.HyprlandOutput? && again)
  }

  function Advance(kind: Kind, s: State, step: Step): State {
    if !Enabled(s, step) then s
    else match step
      case Launch(pid) => s.(process := Some(Process(pid, None)))
      case CleanStale(outcome) => s.(world := Removal(kind, s.world, s.world.file.value.resource, outcome))
      case Create(resource, start, record) => CreateStep(kind, s, resource, start, record)
      case Cleanup(outcome, again) =>
        State(Removal(kind, s.world, s.process.value.own.value, outcome),
              if Repeats(kind, outcome, again) then s.process else Some(s.process.value.(own := None)))
      case Crash => s.(process := None)
      case Lost(resource) => s.(world := s.world.(resources := s.world.resources - {resource}))
  }

  // ---------- The operations ----------

  class Machine {
    var resources: set<Resource>
    var file: Option<Crumb>
    ghost var latest: Option<Resource>

    constructor ()
      ensures Value() == NOTHING.world
    {
      resources, file, latest := {}, None, None;
    }

    ghost function Value(): World
      reads this
    {
      World(resources, file, latest)
    }

    /** The commands of one removal, and the record that goes only with the resource. */
    method Remove(kind: Kind, target: Resource, outcome: Outcome) returns (completed: bool)
      modifies this
      ensures Value() == Removal(kind, old(Value()), target, outcome)
      ensures completed <==> !GivesUp(kind, outcome)
    {
      if kind.AudioSink? && outcome.aborted {
        return false;
      }
      if outcome.removed {
        resources := set r | r in resources && !SameTarget(kind, r, target);
      }
      if outcome.removed || ReportedGone(kind, resources, target, outcome.check) {
        if outcome.erasable {
          file := None;
        }
      }
      return true;
    }

    /** Removes what a dead process recorded. */
    method CleanupStale(kind: Kind, pid: nat, outcome: Outcome) returns (completed: bool)
      modifies this
      ensures State(Value(), Some(Process(pid, None))) == Advance(kind, State(old(Value()), Some(Process(pid, None))), CleanStale(outcome))
    {
      if file.None? || file.value.pid == pid {
        return true;
      }
      completed := Remove(kind, file.value.resource, outcome);
    }

    method WriteRecord(pid: nat, resource: Resource, record: Record)
      modifies this
      ensures Value() == Recorded(old(Value()), pid, resource, record)
    {
      match record {
        case Written => file, latest := Some(Crumb(pid, resource)), Some(resource);
        case Refused =>
        case Cut(left) =>
          file := left;
          if left.Some? && left.value.resource == resource {
            latest := Some(resource);
          }
      }
    }

    /** Creating an output under the guard that rolls it back while its name is not known. */
    method CreateOutput(pid: nat, resource: Resource, start: Start, record: Record) returns (owned: bool)
      modifies this
      ensures owned <==> start.Created?
      ensures State(Value(), Some(Process(pid, if owned then Some(resource) else None)))
              == CreateStep(HyprlandOutput, State(old(Value()), Some(Process(pid, None))), resource, start, record)
    {
      if start.NotCreated? {
        return false;
      }
      resources := resources + {resource};
      if start.Unidentified? {
        if start.rollback.Some? {
          var completed := Remove(HyprlandOutput, resource, start.rollback.value);
        }
        return false;
      }
      WriteRecord(pid, resource, record);
      return true;
    }
  }

  class VirtualSink {
    const kind: Kind
    const machine: Machine
    const resource: Resource
    var cleanedUp: bool

    constructor (kind: Kind, machine: Machine, pid: nat, resource: Resource, record: Record)
      modifies machine
      ensures this.kind == kind && this.machine == machine && this.resource == resource && !cleanedUp
      ensures State(machine.Value(), Some(Process(pid, Some(resource))))
              == CreateStep(kind, State(old(machine.Value()), Some(Process(pid, None))), resource, Created, record)
    {
      this.kind, this.machine, this.resource, cleanedUp := kind, machine, resource, false;
      new;
      machine.resources := machine.resources + {resource};
      machine.WriteRecord(pid, resource, record);
    }

    /** Cleans up once; what gave up or failed later is left to be repeated. */
    method Cleanup(outcome: Outcome, again: bool)
      modifies this, machine
      ensures old(cleanedUp) ==> cleanedUp && machine.Value() == old(machine.Value())
      ensures !old(cleanedUp) ==> machine.Value() == Removal(kind, old(machine.Value()), resource, outcome)
                                  && cleanedUp == !Repeats(kind, outcome, again)
    {
      if cleanedUp {
        return;
      }
      var completed := machine.Remove(kind, resource, outcome);
      cleanedUp := completed && !(kind.HyprlandOutput? && again);
    }
  }

  // ---------- The property and what breaks it ----------

  /** The resource recorded last still exists. */
  predicate Standing(w: World) {
    w.latest.Some? && w.latest.value in w.resources
  }

  /** As long as the resource recorded last exists, its record is on disk. */
  predicate Recoverable(s: State) {
    Standing(s.world) ==> s.world.file.Some? && s.world.file.value.resource == s.world.latest.value
  }

  /**
   How a removal can forget the resource recorded last while it stands, by target and outcome: the target is another
   resource, which is removed, is found missing, or counts as missing because an audio listing failed; or the target is
   that very resource, which an audio removal could not remove and whose absence a failed listing then suggested.
   */
  predicate Mistaken(kind: Kind, w: World, target: Resource, outcome: Outcome) {
    && Standing(w) && outcome.erasable && !(kind.AudioSink? && outcome.aborted)
    && if target == w.latest.value then kind.AudioSink? && !outcome.removed && outcome.check.Fails?
       else if outcome.removed then !SameTarget(kind, w.latest.value, target)
       else (outcome.check.Lists? && Unlisted(w.resources, target)) || (kind.AudioSink? && outcome.check.Fails?)
  }

  /** A guard can also forget it by rolling back a new output, and a new record can cut off the old one. */
  predicate Harmful(kind: Kind, s: State, step: Step) {
    && Enabled(s, step)
    && match step
       case CleanStale(outcome) => Mistaken(kind, s.world, s.world.file.value.resource, outcome)
       case Cleanup(outcome, _) => Mistaken(kind, s.world, s.process.value.own.value, outcome)
       case Create(_, Unidentified(Some(rollback)), _) => kind.HyprlandOutput? && Standing(s.world) && rollback.removed && rollback.erasable
       case Create(resource, Created, Cut(left)) =>
         Standing(s.world) && (left.Some? ==> left.value.resource != resource && left.value.resource != s.world.latest.value)
       case _ => false
  }

  /** A removal keeps the property exactly when it is not mistaken. */
  lemma RemovalExact(kind: Kind, w: World, target: Resource, outcome: Outcome)
    requires Recoverable(State(w, None))
    ensures Recoverable(State(Removal(kind, w, target, outcome), None)) <==> !Mistaken(kind, w, target, outcome)
  {
  }

  /** Rolling back a new output forgets what stands exactly when the output is removed and the record can be deleted. */
  lemma RollbackExact(s: State, resource: Resource, outcome: Outcome)
    requires Recoverable(s) && IsNew(s.world, resource)
    ensures var w := s.world.(resources := s.world.resources + {resource});
            Recoverable(State(Removal(HyprlandOutput, w, resource, outcome), None))
            <==> !(Standing(s.world) && outcome.removed && outcome.erasable)
  {
    var w := s.world.(resources := s.world.resources + {resource});
    assert Recoverable(State(w, None));
    RemovalExact(HyprlandOutput, w, resource, outcome);
    assert resource in w.resources;
  }

  /** A step keeps the property exactly when it is not harmful. */
  lemma StepExact(kind: Kind, s: State, step: Step)
    requires Recoverable(s)
    ensures Recoverable(Advance(kind, s, step)) <==> !Harmful(kind, s, step)
  {
    if Enabled(s, step) {
      hide Removal, Mistaken, SameTarget;
      match step
      case CleanStale(outcome) => RemovalExact(kind, s.world, s.world.file.value.resource, outcome);
      case Cleanup(outcome, _) => RemovalExact(kind, s.world, s.process.value.own.value, outcome);
      case Create(resource, Unidentified(Some(rollback)), _) => RollbackExact(s, resource, rollback);
      case _ =>
    }
  }

  function Run(kind: Kind, s: State, steps: seq<Step>): State
    decreases |steps|
  {
    if steps == [] then s else Run(kind, Advance(kind, s, steps[0]), steps[1..])
  }

  /** The property after every step of a run. */
  predicate AlwaysRecoverable(kind: Kind, s: State, steps: seq<Step>)
    decreases |steps|
  {
    Recoverable(s) && (steps != [] ==> AlwaysRecoverable(kind, Advance(kind, s, steps[0]), steps[1..]))
  }

  predicate NeverHarmful(kind: Kind, s: State, steps: seq<Step>)
    decreases |steps|
  {
    steps != [] ==> !Harmful(kind, s, steps[0]) && NeverHarmful(kind, Advance(kind, s, steps[0]), steps[1..])
  }

  /**
   Main result: over every run of launches, stale clean-ups, creations, roll-backs, clean-ups, crashes and losses with
   arbitrary command failures, the resource recorded last stays recoverable throughout exactly when no step is harmful.
   */
  lemma {:induction false} RecoverableExactly(kind: Kind, s: State, steps: seq<Step>)
    requires Recoverable(s)
    ensures AlwaysRecoverable(kind, s, steps) <==> NeverHarmful(kind, s, steps)
    decreases |steps|
  {
    hide Recoverable, Advance, Harmful;
    if steps != [] {
      StepExact(kind, s, steps[0]);
      if !Harmful(kind, s, steps[0]) {
        RecoverableExactly(kind, Advance(kind, s, steps[0]), steps[1..]);
      } else {
        assert !Recoverable(Advance(kind, s, steps[0]));
      }
    }
  }

  /** Removing the resource recorded last never forgets an output, and an audio sink exactly when unloading and listing both failed. */
  lemma OwnRecordIsSafe(kind: Kind, w: World, outcome: Outcome)
    requires Recoverable(State(w, None)) && w.latest.Some?
    ensures Recoverable(State(Removal(kind, w, w.latest.value, outcome), None))
       <==> !(&& kind.AudioSink? && Standing(w)
              && !outcome.aborted && !outcome.removed && outcome.check.Fails? && outcome.erasable)
  {
    RemovalExact(kind, w, w.latest.value, outcome);
  }

  // ---------- Runs whose records are all written ----------

  /** What a process has yet to clean up is what was recorded last. */
  predicate OwnIsRecorded(s: State) {
    s.process.Some? && s.process.value.own.Some? ==> s.world.latest == s.process.value.own
  }

  predicate RecordWritten(step: Step) {
    step.Create? && step.start.Created? ==> step.record.Written?
  }

  /** The two slips that remain when every record is written, by their outcomes alone. */
  predicate Slips(kind: Kind, step: Step) {
    match step
    case CleanStale(outcome) => Suggested(kind, outcome)
    case Cleanup(outcome, _) => Suggested(kind, outcome)
    case Create(_, Unidentified(Some(rollback)), _) => kind.HyprlandOutput? && rollback.removed && rollback.erasable
    case _ => false
  }

  /** An audio removal that removed nothing and whose listing then failed. */
  predicate Suggested(kind: Kind, outcome: Outcome) {
    kind.AudioSink? && !outcome.aborted && !outcome.removed && outcome.check.Fails? && outcome.erasable
  }

  /** No slip is made while the resource recorded last stands. */
  predicate NoSlips(kind: Kind, s: State, steps: seq<Step>)
    decreases |steps|
  {
    steps != [] ==>
      && !(Enabled(s, steps[0]) && Standing(s.world) && Slips(kind, steps[0]))
      && NoSlips(kind, Advance(kind, s, steps[0]), steps[1..])
  }

  /**
   Main result: when every record is written, crashes and command failures make the resource recorded last
   unrecoverable exactly when, while it stands, an audio removal fails together with its listing, or a guard rolls
   back a new output that it could not identify.
   */
  lemma {:induction false} WrittenRunsExactly(kind: Kind, s: State, steps: seq<Step>)
    requires Recoverable(s) && OwnIsRecorded(s)
    requires forall step :: step in steps ==> RecordWritten(step)
    ensures AlwaysRecoverable(kind, s, steps) <==> NoSlips(kind, s, steps)
    decreases |steps|
  {
    if steps != [] {
      assert steps[0] in steps && forall step :: step in steps[1..] ==> step in steps;
      StepExact(kind, s, steps[0]);
      WrittenStep(kind, s, steps[0]);
      hide Recoverable, OwnIsRecorded, RecordWritten, Advance, Harmful, Slips, Enabled, Standing;
      if !Harmful(kind, s, steps[0]) {
        WrittenRunsExactly(kind, Advance(kind, s, steps[0]), steps[1..]);
      } else {
        assert !Recoverable(Advance(kind, s, steps[0]));
      }
    }
  }

  lemma WrittenStep(kind: Kind, s: State, step: Step)
    requires Recoverable(s) && OwnIsRecorded(s) && RecordWritten(step)
    ensures Harmful(kind, s, step) <==> Enabled(s, step) && Standing(s.world) && Slips(kind, step)
    ensures OwnIsRecorded(Advance(kind, s, step))
  {
  }

  // ---------- Inputs that show the failures ----------

  lemma RunCons(kind: Kind, s: State, step: Step, rest: seq<Step>)
    ensures Run(kind, s, [step] + rest) == Run(kind, Advance(kind, s, step), rest)
    ensures Run(kind, s, []) == s
  {
    hide Advance;
    assert ([step] + rest)[1..] == rest;
  }

  lemma RunTwo(kind: Kind, s: State, a: Step, b: Step)
    ensures Run(kind, s, [a, b]) == Advance(kind, Advance(kind, s, a), b)
  {
    RunCons(kind, s, a, [b]);
    RunCons(kind, Advance(kind, s, a), b, []);
    assert [a] + [b] == [a, b] && [b] + [] == [b];
    hide Advance;
  }

  lemma RunThree(kind: Kind, s: State, a: Step, b: Step, c: Step)
    ensures Run(kind, s, [a, b, c]) == Advance(kind, Advance(kind, Advance(kind, s, a), b), c)
  {
    RunCons(kind, s, a, [b, c]);
    RunTwo(kind, Advance(kind, s, a), b, c);
    assert [a] + [b, c] == [a, b, c];
    hide Advance;
  }

  /** A failed listing makes the audio clean-up forget a sink that still exists; the output clean-up keeps its record. */
  lemma FailedListingForgets()
    ensures var sink := Resource("waycast_sink_1", 1);
            var steps := [Launch(1), Create(sink, Created, Written), Cleanup(Outcome(false, false, Fails, true), false)];
            && sink in Run(AudioSink, NOTHING, steps).world.resources && Run(AudioSink, NOTHING, steps).world.file.None?
            && !Recoverable(Run(AudioSink, NOTHING, steps)) && Recoverable(Run(HyprlandOutput, NOTHING, steps))
  {
    var sink := Resource("waycast_sink_1", 1);
    var failed := Cleanup(Outcome(false, false, Fails, true), false);
    RunThree(AudioSink, NOTHING, Launch(1), Create(sink, Created, Written), failed);
    RunThree(HyprlandOutput, NOTHING, Launch(1), Create(sink, Created, Written), failed);
    var recorded := State(World({sink}, Some(Crumb(1, sink)), Some(sink)), Some(Process(1, Some(sink))));
    forall kind: Kind ensures Advance(kind, Advance(kind, NOTHING, Launch(1)), Create(sink, Created, Written)) == recorded {
      assert {} + {sink} == {sink};
    }
  }

  /** A dead process recorded `older`, whose stale clean-up fails and so keeps the record. */
  function AfterCrash(older: Resource): State {
    State(World({older}, Some(Crumb(1, older)), Some(older)), Some(Process(2, None)))
  }

  const KEPT := CleanStale(Outcome(false, false, Lists, true))

  lemma StaleKept(kind: Kind, older: Resource)
    ensures Recoverable(AfterCrash(older)) && Advance(kind, AfterCrash(older), KEPT) == AfterCrash(older)
  {
  }

  /** A process whose own record could not be written deletes, when it cleans up, the record of an older resource. */
  lemma UnrecordedForgetsOlder(kind: Kind, older: Resource, newer: Resource)
    requires older.name != newer.name && older.index != newer.index
    ensures var steps := [KEPT, Create(newer, Created, Refused), Cleanup(Outcome(false, true, Lists, true), false)];
            older in Run(kind, AfterCrash(older), steps).world.resources && !Recoverable(Run(kind, AfterCrash(older), steps))
  {
    var before := AfterCrash(older);
    var b, c := Create(newer, Created, Refused), Cleanup(Outcome(false, true, Lists, true), false);
    StaleKept(kind, older);
    RunThree(kind, before, KEPT, b, c);
    assert Advance(kind, before, b) == State(World({older} + {newer}, Some(Crumb(1, older)), Some(older)), Some(Process(2, Some(newer))));
    assert older in Without(kind, {older} + {newer}, newer);
  }

  /** A guard that rolls back a new output it could not identify deletes the record of an older one. */
  lemma GuardForgetsOlder(older: Resource, newer: Resource)
    requires older.name != newer.name && older.index != newer.index
    ensures var steps := [KEPT, Create(newer, Unidentified(Some(Outcome(false, true, Lists, true))), Refused)];
            && (forall step :: step in steps ==> RecordWritten(step))
            && older in Run(HyprlandOutput, AfterCrash(older), steps).world.resources
            && !Recoverable(Run(HyprlandOutput, AfterCrash(older), steps))
  {
    var before := AfterCrash(older);
    var b := Create(newer, Unidentified(Some(Outcome(false, true, Lists, true))), Refused);
    StaleKept(HyprlandOutput, older);
    RunTwo(HyprlandOutput, before, KEPT, b);
    assert older in Without(HyprlandOutput, {older} + {newer}, newer);
  }

  /** A new record that is cut short leaves an older resource without one. */
  lemma CutRecordForgetsOlder(kind: Kind, older: Resource, newer: Resource)
    requires older.name != newer.name && older.index != newer.index
    ensures var steps := [KEPT, Create(newer, Created, Cut(None))];
            older in Run(kind, AfterCrash(older), steps).world.resources && !Recoverable(Run(kind, AfterCrash(older), steps))
  {
    var b := Create(newer, Created, Cut(None));
    StaleKept(kind, older);
    RunTwo(kind, AfterCrash(older), KEPT, b);
  }

  /** What a clean-up leaves to be done: all of it for audio when a command could not be started, a later part for outputs. */
  lemma OwnAfterCleanup(kind: Kind, s: State, outcome: Outcome, again: bool)
    requires Enabled(s, Cleanup(outcome, again))
    ensures var after := Advance(kind, s, Cleanup(outcome, again)).process.value;
            && after.pid == s.process.value.pid
            && after.own == if (if kind.AudioSink? then outcome.aborted else again) then s.process.value.own else None
  {
    hide Removal;
  }

  /**
   A record that was cut short inside its module index: the clean-up after a crash unloads another module, deletes the
   record and leaves the sink; an output, which is removed by its name, goes all the same.
   */
  lemma CutIndexMisses(sink: Resource, other: nat)
    requires other != sink.index
    ensures var cut := Cut(Some(Crumb(1, Resource(sink.name, other))));
            var steps := [Create(sink, Created, cut), Crash, Launch(2), CleanStale(Outcome(false, true, Lists, true))];
            var start := State(World({}, None, None), Some(Process(1, None)));
            && sink in Run(AudioSink, start, steps).world.resources && Run(AudioSink, start, steps).world.file.None?
            && Run(HyprlandOutput, start, steps).world.resources == {}
  {
    var cut := Cut(Some(Crumb(1, Resource(sink.name, other))));
    var start := State(World({}, None, None), Some(Process(1, None)));
    var a, b, c, d := Create(sink, Created, cut), Crash, Launch(2), CleanStale(Outcome(false, true, Lists, true));
    forall kind: Kind
      ensures Run(kind, start, [a, b, c, d]) == Advance(kind, State(World({sink}, Some(Crumb(1, Resource(sink.name, other))), None), Some(Process(2, None))), d)
    {
      RunCons(kind, start, a, [b, c, d]);
      assert [a] + [b, c, d] == [a, b, c, d];
      RunThree(kind, Advance(kind, start, a), b, c, d);
      assert {} + {sink} == {sink};
    }
    var target := Resource(sink.name, other);
    assert sink in Without(AudioSink, {sink}, target);
    assert Without(HyprlandOutput, {sink}, target) == {};
  }
}
