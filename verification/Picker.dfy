/**
 Which screen-share picker was configured before, read from the portal configuration, and why blocks left
 behind by crashed sessions do not change the answer.
 */
module Pickers {
  import opened Wrappers
  import opened Text
  import opened ManagedBlocks

  const DEFAULT_PICKER := "hyprland-share-picker"
  const KEYWORD := "custom_picker_binary"
  const SECTION_NAME := "screencopy"

  // ---------- Paths ----------

  /** The components that count when paths are compared: not empty ones, and `.` only where a relative path starts. */
  function Kept(parts: seq<string>, first: bool): seq<string> {
    if parts == [] then []
    else (if parts[0] == "" || (parts[0] == "." && !first) then [] else [parts[0]]) + Kept(parts[1..], false)
  }

  predicate Rooted(path: string) {
    path != "" && path[0] == '/'
  }

  /** Equality of paths, component by component. */
  predicate SamePath(a: string, b: string) {
    Rooted(a) == Rooted(b) && Kept(SplitOn(a, '/'), !Rooted(a)) == Kept(SplitOn(b, '/'), !Rooted(b))
  }

  // ---------- Reading one line ----------

  function TrimQuotesStart(s: string): string {
    if s != "" && s[0] == '"' then TrimQuotesStart(s[1..]) else s
  }

  function TrimQuotesEnd(s: string): string {
    if s != "" && s[|s| - 1] == '"' then TrimQuotesEnd(s[..|s| - 1]) else s
  }

  function TrimQuotes(s: string): string {
    TrimQuotesEnd(TrimQuotesStart(s))
  }

  /** A line without its comment and without white space at its edges. */
  function Content(raw: string): string {
    Trim(SplitOn(raw, '#')[0])
  }

  /** Opening braces minus closing braces. */
  function Braces(line: string): int {
    if line == "" then 0
    else (if line[0] == '{' then 1 else if line[0] == '}' then -1 else 0) + Braces(line[1..])
  }

  /** The picker that a line names, unless it is our own script. */
  function PickerValue(line: string, own: string): Option<string> {
    if !(KEYWORD <= line) then None
    else
      var rest := TrimStart(line[|KEYWORD|..]);
      if rest == "" || rest[0] != '=' then None
      else
        var value := TrimQuotes(Trim(rest[1..]));
        if value != "" && !SamePath(value, own) then Some(value) else None
  }

  datatype State = State(inside: bool, depth: int)

  predicate Opens(line: string) {
    SECTION_NAME <= line && '{' in line
  }

  /** The state after a line with content, and the picker it names inside the section. */
  function ScanContent(state: State, line: string, own: string): (State, Option<string>) {
    var entered := if !state.inside && Opens(line) then State(true, 0) else state;
    if !entered.inside then (entered, None)
    else
      var depth := entered.depth + Braces(line);
      (State(depth > 0, depth), PickerValue(line, own))
  }

  function ScanLine(state: State, raw: string, own: string): (State, Option<string>) {
    if Content(raw) == "" then (state, None) else ScanContent(state, Content(raw), own)
  }

  /** The first picker named, and the state after the lines when there is none. */
  function Scan(lines: seq<string>, state: State, own: string): (State, Option<string>) {
    if lines == [] then (state, None)
    else
      var (next, found) := ScanLine(state, lines[0], own);
      if found.Some? then (next, found) else Scan(lines[1..], next, own)
  }

  function Configured(text: string, own: string): Option<string> {
    Scan(Lines(text), State(false, 0), own).1
  }

  function Original(existing: Option<string>, own: string): string {
    match existing
    case None => DEFAULT_PICKER
    case Some(text) =>
      match Configured(text, own)
      case Some(picker) => picker
      case None => DEFAULT_PICKER
  }

  /** The scan as a loop over the lines. */
  method OriginalPickerBinary(existing: Option<string>, own: string) returns (picker: string)
    ensures picker == Original(existing, own)
  {
    hide Content, PickerValue, Braces, Opens, Lines;
    if existing.None? {
      return DEFAULT_PICKER;
    }
    var lines := Lines(existing.value);
    var inside, depth := false, 0;
    for i := 0 to |lines|
      invariant Scan(lines, State(false, 0), own) == Scan(lines[i..], State(inside, depth), own)
    {
      assert lines[i..][1..] == lines[i + 1..];
      var line := Content(lines[i]);
      if line == "" {
        continue;
      }
      if !inside && Opens(line) {
        inside, depth := true, 0;
      }
      if !inside {
        continue;
      }
      depth := depth + Braces(line);
      var found := PickerValue(line, own);
      if found.Some? {
        return found.value;
      }
      if depth <= 0 {
        inside := false;
      }
    }
    return DEFAULT_PICKER;
  }

  // ---------- Never our own script ----------

  lemma {:induction false} FoundIsForeign(lines: seq<string>, state: State, own: string)
    ensures Scan(lines, state, own).1.Some? ==> Scan(lines, state, own).1.value != "" && !SamePath(Scan(lines, state, own).1.value, own)
  {
    hide SamePath, Content, Braces, Opens, TrimQuotes;
    if lines != [] {
      FoundIsForeign(lines[1..], ScanLine(state, lines[0], own).0, own);
    }
  }

  /** The fallback is never the script itself, unless the script has the default picker's name. */
  lemma NeverOwnScript(existing: Option<string>, own: string)
    requires !SamePath(DEFAULT_PICKER, own)
    ensures !SamePath(Original(existing, own), own)
  {
    hide SamePath, Scan;
    if existing.Some? {
      FoundIsForeign(Lines(existing.value), State(false, 0), own);
    }
  }

  // ---------- Reading our own block ----------

  /** What the scan reads from the picker line of a block. */
  function OwnValue(picker: string): string {
    TrimQuotes(Trim(SplitOn(picker, '#')[0]))
  }

  function OwnFound(picker: string): Option<string> {
    if OwnValue(picker) == "" || SamePath(OwnValue(picker), picker) then None else Some(OwnValue(picker))
  }

  /** A block with this picker is read as naming no other picker than the default. */
  predicate Harmless(picker: string) {
    var value := OwnValue(picker);
    value == "" || SamePath(value, picker) || value == DEFAULT_PICKER
  }

  predicate Proper(state: State) {
    state.inside ==> state.depth > 0
  }

  lemma {:induction false} ScanProper(lines: seq<string>, state: State, own: string)
    requires Proper(state)
    ensures Scan(lines, state, own).1.None? ==> Proper(Scan(lines, state, own).0)
  {
    hide PickerValue, Content, Braces, Opens;
    if lines != [] && ScanLine(state, lines[0], own).1.None? {
      ScanProper(lines[1..], ScanLine(state, lines[0], own).0, own);
    }
  }

  lemma {:induction false} ScanAppend(a: seq<string>, b: seq<string>, state: State, own: string)
    ensures Scan(a + b, state, own)
         == if Scan(a, state, own).1.Some? then Scan(a, state, own) else Scan(b, Scan(a, state, own).0, own)
  {
    hide ScanLine;
    if a == [] {
      assert a + b == b;
    } else {
      assert (a + b)[1..] == a[1..] + b;
      ScanAppend(a[1..], b, ScanLine(state, a[0], own).0, own);
    }
  }

  lemma HashLine(line: string)
    requires line != "" && line[0] == '#'
    ensures Content(line) == ""
  {
    assert IndexOf(line, '#') == 0;
    assert SplitOn(line, '#')[0] == "";
  }

  lemma PlainLine(line: string)
    requires '#' !in line && Trimmed(line)
    ensures Content(line) == line
  {
    TrimIdentity(line);
  }

  lemma SplitPrefix(prefix: string, s: string)
    requires '#' !in prefix
    ensures SplitOn(prefix + s, '#')[0] == prefix + SplitOn(s, '#')[0]
  {
    assert forall i :: 0 <= i < |prefix| ==> (prefix + s)[i] == prefix[i];
    if '#' in s {
      var i := IndexOf(s, '#');
      assert s == s[..i] + ['#'] + s[i + 1..];
      assert prefix + s == (prefix + s[..i]) + ['#'] + s[i + 1..];
      SplitOnCons(s[..i], '#', s[i + 1..]);
      assert '#' !in prefix + s[..i];
      SplitOnCons(prefix + s[..i], '#', s[i + 1..]);
    }
  }

  lemma {:induction false} TrimEndBehind(prefix: string, s: string)
    requires prefix != "" && !IsSpace(prefix[|prefix| - 1])
    ensures TrimEnd(prefix + s) == prefix + TrimEnd(s)
  {
    if s == "" {
      assert prefix + s == prefix;
    } else if IsSpace(s[|s| - 1]) {
      assert (prefix + s)[..|prefix + s| - 1] == prefix + s[..|s| - 1];
      TrimEndBehind(prefix, s[..|s| - 1]);
    }
  }

  lemma {:induction false} TrimOfTrimEnd(s: string)
    ensures Trim(TrimEnd(s)) == Trim(s)
  {
    if s != "" && IsSpace(s[|s| - 1]) {
      TrimOfTrimEnd(s[..|s| - 1]);
      TrimLast(s[..|s| - 1], s[|s| - 1]);
      assert s == s[..|s| - 1] + [s[|s| - 1]];
    }
  }

  /** White space at the end of a text does not survive trimming. */
  lemma {:induction false} TrimLast(s: string, c: char)
    requires IsSpace(c)
    ensures Trim(s + [c]) == Trim(s)
  {
    if s == "" {
      assert (s + [c])[1..] == "";
    } else if IsSpace(s[0]) {
      assert (s + [c])[1..] == s[1..] + [c];
      TrimLast(s[1..], c);
    } else {
      assert (s + [c])[..|s + [c]| - 1] == s;
    }
  }

  /** A carriage return at the end of a line makes no difference. */
  lemma StripCRIsContent(line: string)
    ensures Content(StripCR(line)) == Content(line)
  {
    if StripCR(line) != line {
      var short := line[..|line| - 1];
      assert line == short + "\r";
      if '#' in short {
        var i := IndexOf(short, '#');
        assert short == short[..i] + ['#'] + short[i + 1..];
        assert line == short[..i] + ['#'] + (short[i + 1..] + "\r");
        SplitOnCons(short[..i], '#', short[i + 1..]);
        SplitOnCons(short[..i], '#', short[i + 1..] + "\r");
      } else {
        TrimLast(short, '\r');
      }
    }
  }

  lemma KeyIs()
    ensures PICKER_KEY == "    " + (KEYWORD + " =") + " "
  {
  }

  lemma KeyPlain()
    ensures '#' !in PICKER_KEY
  {
  }

  lemma FourSpaces(x: string)
    requires x != "" && !IsSpace(x[0])
    ensures TrimStart("    " + x) == x
  {
    OneSpace(x);
    OneSpace(" " + x);
    OneSpace(" " + (" " + x));
    OneSpace(" " + (" " + (" " + x)));
    assert "    " + x == " " + (" " + (" " + (" " + x)));
  }

  lemma OneSpace(x: string)
    ensures TrimStart(" " + x) == TrimStart(x)
  {
    assert (" " + x)[1..] == x;
  }

  lemma KeywordShape()
    ensures !IsSpace(KEYWORD[0]) && KEYWORD != ""
  {
  }

  /** The picker line of a block, without comment and edges. */
  lemma OwnContent(picker: string)
    ensures Content(PICKER_KEY + picker) == KEYWORD + " =" + TrimEnd(" " + SplitOn(picker, '#')[0])
  {
    KeyIs();
    KeyPlain();
    KeywordShape();
    hide SplitOn, TrimEnd, TrimStart, PICKER_KEY, KEYWORD;
    var p := SplitOn(picker, '#')[0];
    SplitPrefix(PICKER_KEY, picker);
    var key := KEYWORD + " =";
    assert PICKER_KEY + p == "    " + (key + (" " + p));
    FourSpaces(key + (" " + p));
    TrimEndBehind(key, " " + p);
  }

  lemma OwnLine(picker: string)
    ensures Content(PICKER_KEY + picker) != ""
    ensures PickerValue(Content(PICKER_KEY + picker), picker)
         == OwnFound(picker)
  {
    var p := SplitOn(picker, '#')[0];
    var tail := TrimEnd(" " + p);
    OwnContent(picker);
    hide SplitOn, TrimEnd, SamePath, TrimQuotes, Content;
    var line := KEYWORD + " =" + tail;
    assert KEYWORD <= line;
    assert line[|KEYWORD|..] == " " + ("=" + tail);
    assert TrimStart(" " + ("=" + tail)) == "=" + tail by {
      assert (" " + ("=" + tail))[1..] == "=" + tail;
    }
    assert ("=" + tail)[1..] == tail;
    hide TrimStart;
    assert Trim(tail) == Trim(p) by {
      TrimOfTrimEnd(" " + p);
      TrimLeadingSpace(p);
    }
  }

  /** The lines of a block as they are read. */
  function BlockLines(picker: string): seq<string> {
    ["", BLOCK_START, SECTION, StripCR(PICKER_KEY + picker), TOKEN_LINE, "}", BLOCK_END]
  }

  lemma OneLine(line: string, rest: string)
    requires '\n' !in line && (line != "" ==> line[|line| - 1] != '\r')
    ensures Lines(line + "\n" + rest) == [line] + Lines(rest)
  {
    LinesCons(line, rest);
  }

  lemma StartLine()
    ensures '\n' !in BLOCK_START && BLOCK_START[|BLOCK_START| - 1] == '-'
  {
    SingleLines();
    assert TITLE[|TITLE| - 1] == '-';
  }

  lemma EndingLine()
    ensures '\n' !in BLOCK_END && BLOCK_END[|BLOCK_END| - 1] == '-'
  {
  }

  lemma SectionWhole()
    ensures '\n' !in SECTION && SECTION[|SECTION| - 1] == '{'
  {
  }

  lemma KeyWhole()
    ensures '\n' !in PICKER_KEY
  {
  }

  lemma TokenWhole()
    ensures '\n' !in TOKEN_LINE && TOKEN_LINE[|TOKEN_LINE| - 1] == 'e'
  {
  }

  lemma LineEnds()
    ensures '\n' !in BLOCK_START && BLOCK_START[|BLOCK_START| - 1] == '-'
    ensures '\n' !in BLOCK_END && BLOCK_END[|BLOCK_END| - 1] == '-'
    ensures '\n' !in SECTION && '\n' !in PICKER_KEY && '\n' !in TOKEN_LINE && TOKEN_LINE[|TOKEN_LINE| - 1] == 'e'
    ensures SECTION[|SECTION| - 1] == '{'
  {
    hide *;
    StartLine();
    EndingLine();
    SectionWhole();
    KeyWhole();
    TokenWhole();
  }

  lemma LinesOfBlock(picker: string)
    requires '\n' !in picker
    ensures Lines(Block(picker)) == BlockLines(picker)
  {
    LineEnds();
    BlockText(picker);
    hide Lines, StripCR, Block, BLOCK_START, BLOCK_END, SECTION, PICKER_KEY, TOKEN_LINE;
    var entry := PICKER_KEY + picker;
    var last := BLOCK_END + "\n" + "";
    var closing := "}" + "\n" + last;
    var token := TOKEN_LINE + "\n" + closing;
    var middle := entry + "\n" + token;
    var section := SECTION + "\n" + middle;
    var start := BLOCK_START + "\n" + section;
    NoLines();
    OneLine(BLOCK_END, "");
    OneLine("}", last);
    OneLine(TOKEN_LINE, closing);
    LinesCons(entry, token);
    OneLine(SECTION, middle);
    OneLine(BLOCK_START, section);
    OneLine("", start);
    assert "" + "\n" + start == "\n" + start;
  }

  lemma BlockText(picker: string)
    ensures Block(picker)
         == "\n" + (BLOCK_START + "\n" + (SECTION + "\n" + ((PICKER_KEY + picker) + "\n"
            + (TOKEN_LINE + "\n" + ("}" + "\n" + (BLOCK_END + "\n" + ""))))))
  {
    BodyText(PICKER_KEY + picker, BLOCK_END);
    AppendNothing(BLOCK_END + "\n");
  }

  lemma AppendNothing(x: string)
    ensures x + "" == x
  {
  }

  lemma BodyText(entry: string, end: string)
    ensures SECTION + "\n" + (entry + "\n" + (TOKEN_LINE + "\n" + "}")) + "\n" + (end + "\n")
         == SECTION + "\n" + (entry + "\n" + (TOKEN_LINE + "\n" + ("}" + "\n" + (end + "\n"))))
  {
    var tail := end + "\n";
    Shift(TOKEN_LINE, "}", tail);
    Shift(entry, TOKEN_LINE + "\n" + "}", tail);
    Shift(SECTION, entry + "\n" + (TOKEN_LINE + "\n" + "}"), tail);
  }

  lemma Shift(x: string, y: string, z: string)
    ensures x + "\n" + y + "\n" + z == x + "\n" + (y + "\n" + z)
  {
  }

  // ---------- Blocks left behind do not matter ----------

  lemma ScanOne(line: string, rest: seq<string>, state: State, own: string)
    ensures Scan([line] + rest, state, own)
         == if ScanLine(state, line, own).1.Some? then ScanLine(state, line, own) else Scan(rest, ScanLine(state, line, own).0, own)
  {
    hide ScanLine;
    assert ([line] + rest)[1..] == rest;
  }

  lemma Skipped(line: string, state: State, own: string)
    requires Content(line) == ""
    ensures ScanLine(state, line, own) == (state, None)
  {
  }

  lemma SectionLine(state: State, own: string)
    requires Proper(state)
    ensures ScanLine(state, SECTION, own).1.None? && ScanLine(state, SECTION, own).0.inside && Proper(ScanLine(state, SECTION, own).0)
  {
    SectionPlain();
    SectionFacts();
    hide Content, Braces, Opens, SECTION, KEYWORD;
  }

  lemma SectionPlain()
    ensures SECTION != "" && Content(SECTION) == SECTION
  {
    PlainLine(SECTION);
  }

  lemma SectionPieces()
    ensures SECTION == SECTION_NAME + " {"
  {
  }

  lemma NamePlain()
    ensures '{' !in SECTION_NAME && '}' !in SECTION_NAME
  {
  }

  lemma BracesOfEnd()
    ensures Braces(" {") == 1
  {
    assert " {"[1..] == "{" && "{"[1..] == "";
  }

  lemma SectionBraces()
    ensures Braces(SECTION) == 1
  {
    hide *;
    BracesOfSum(SECTION_NAME, " {");
    NamePlain();
    NoBraces(SECTION_NAME);
    SectionPieces();
    BracesOfEnd();
  }

  lemma SectionStart()
    ensures SECTION != "" && KEYWORD != "" && SECTION[0] != KEYWORD[0] && SECTION[|SECTION| - 1] == '{'
  {
  }

  lemma SectionFacts()
    ensures Opens(SECTION) && Braces(SECTION) == 1 && !(KEYWORD <= SECTION)
  {
    SectionPieces();
    SectionStart();
    SectionBraces();
    hide SECTION, SECTION_NAME, KEYWORD, Braces;
    assert '{' in SECTION;
  }

  lemma {:induction false} BracesOfSum(a: string, b: string)
    ensures Braces(a + b) == Braces(a) + Braces(b)
  {
    if a == "" {
      assert a + b == b;
    } else {
      assert (a + b)[1..] == a[1..] + b;
      BracesOfSum(a[1..], b);
    }
  }

  lemma {:induction false} NoBraces(s: string)
    requires '{' !in s && '}' !in s
    ensures Braces(s) == 0
  {
    if s != "" {
      NoBraces(s[1..]);
    }
  }

  /** A line that does not start with the keyword names no picker. */
  lemma OtherLine(line: string, state: State, own: string)
    requires Content(line) != "" ==> Content(line)[0] != KEYWORD[0]
    ensures ScanLine(state, line, own).1.None?
  {
    hide Content, Braces, Opens;
  }

  lemma PickerLine(picker: string, state: State)
    requires state.inside
    ensures ScanLine(state, StripCR(PICKER_KEY + picker), picker).1
         == OwnFound(picker)
  {
    hide SamePath, OwnValue, StripCR, Content, Braces, PickerValue;
    StripCRIsContent(PICKER_KEY + picker);
    OwnLine(picker);
  }

  lemma RemainingLines(state: State, own: string)
    ensures Content("") == "" && Content(BLOCK_START) == "" && Content(BLOCK_END) == ""
    ensures ScanLine(state, TOKEN_LINE, own).1.None? && ScanLine(state, "}", own).1.None?
  {
    SingleLines();
    KeywordStart();
    TokenContent();
    hide BLOCK_START, BLOCK_END, TOKEN_LINE, KEYWORD, ScanLine, Content;
    HashLine(BLOCK_START);
    HashLine(BLOCK_END);
    SmallLines();
    OtherLine("}", state, own);
    OtherLine(TOKEN_LINE, state, own);
  }

  lemma SmallLines()
    ensures Content("") == "" && Content("}") == "}"
  {
    PlainLine("");
    PlainLine("}");
  }

  lemma KeywordStart()
    ensures KEYWORD != "" && KEYWORD[0] == 'c'
  {
  }

  lemma TokenPlain()
    ensures '#' !in TOKEN_LINE
  {
  }

  lemma TokenPieces()
    ensures |TOKEN_LINE| > 4 && TOKEN_LINE[4] == 'a' && TOKEN_LINE[..4] == "    "
  {
  }

  lemma IndentedContent(line: string)
    requires '#' !in line && |line| > 4 && line[..4] == "    " && !IsSpace(line[4])
    ensures Content(line) != "" ==> Content(line)[0] == line[4]
  {
    hide TrimStart, TrimEnd, IsSpace;
    assert line == "    " + line[4..];
    FourSpaces(line[4..]);
    TrimEndTrims(line[4..]);
  }

  lemma TokenContent()
    ensures Content(TOKEN_LINE) != "" ==> Content(TOKEN_LINE)[0] == 'a'
  {
    TokenPlain();
    TokenPieces();
    hide TOKEN_LINE, Content;
    IndentedContent(TOKEN_LINE);
  }

  lemma BlockLinesAre(picker: string)
    ensures BlockLines(picker) == [""] + ([BLOCK_START] + ([SECTION] + ([StripCR(PICKER_KEY + picker)] + [TOKEN_LINE, "}", BLOCK_END])))
  {
  }

  /** Only the picker line of a block can name a picker. */
  lemma ScanEntry(entry: string, state: State, own: string)
    requires Proper(state)
    ensures Scan([""] + ([BLOCK_START] + ([SECTION] + ([entry] + [TOKEN_LINE, "}", BLOCK_END]))), state, own).1
         == ScanLine(ScanLine(state, SECTION, own).0, entry, own).1
  {
    hide *;
    var tail := [TOKEN_LINE, "}", BLOCK_END];
    SectionLine(state, own);
    var inside := ScanLine(state, SECTION, own).0;
    ScanTail(ScanLine(inside, entry, own).0, own);
    RemainingLines(state, own);
    Skipped("", state, own);
    Skipped(BLOCK_START, state, own);
    ScanOne("", [BLOCK_START] + ([SECTION] + ([entry] + tail)), state, own);
    ScanOne(BLOCK_START, [SECTION] + ([entry] + tail), state, own);
    ScanOne(SECTION, [entry] + tail, state, own);
    ScanOne(entry, tail, inside, own);
  }

  /** A block, read in whatever state the text before it left behind, names nothing or its own value. */
  lemma ScanBlock(picker: string, state: State)
    requires '\n' !in picker && Proper(state)
    ensures Scan(Lines(Block(picker)), state, picker).1 == OwnFound(picker)
  {
    hide *;
    LinesOfBlock(picker);
    BlockLinesAre(picker);
    SectionLine(state, picker);
    PickerLine(picker, ScanLine(state, SECTION, picker).0);
    ScanEntry(StripCR(PICKER_KEY + picker), state, picker);
  }

  lemma ScanTail(state: State, own: string)
    ensures Scan([TOKEN_LINE, "}", BLOCK_END], state, own).1.None?
  {
    hide *;
    assert [TOKEN_LINE, "}", BLOCK_END] == [TOKEN_LINE] + (["}"] + ([BLOCK_END] + []));
    RemainingLines(state, own);
    var second := ScanLine(state, TOKEN_LINE, own).0;
    RemainingLines(second, own);
    var third := ScanLine(second, "}", own).0;
    ScanNone(third, own);
    ScanOne(TOKEN_LINE, ["}"] + ([BLOCK_END] + []), state, own);
    ScanOne("}", [BLOCK_END] + [], second, own);
    ScanOne(BLOCK_END, [], third, own);
    Skipped(BLOCK_END, third, own);
  }

  lemma ScanNone(state: State, own: string)
    ensures Scan([], state, own) == (state, None)
  {
  }

  lemma SameLastLine(last: string, state: State, own: string)
    ensures Scan([StripCR(last)], state, own) == Scan([last], state, own)
  {
    StripCRIsContent(last);
    hide Content, ScanContent, StripCR;
    assert [last][1..] == [] && [StripCR(last)][1..] == [];
  }

  /** Ending the last line does not change what is read. */
  lemma ScanEnded(text: string, state: State, own: string)
    ensures Scan(Lines(Ended(text)), state, own) == Scan(Lines(text), state, own)
  {
    if Ended(text) != text {
      var head, last := LastLine(text);
      LinesOfLast(last);
      assert text + "\n" == head + (last + "\n");
      assert Ended(text) == text + "\n";
      hide *;
      LinesAppend(head, last);
      LinesAppend(head, last + "\n");
      ScanAppend(Lines(head), [last], state, own);
      ScanAppend(Lines(head), [StripCR(last)], state, own);
      SameLastLine(last, Scan(Lines(head), state, own).0, own);
    }
  }

  lemma LinesOfLast(last: string)
    requires last != "" && '\n' !in last
    ensures Lines(last) == [last] && Lines(last + "\n") == [StripCR(last)]
  {
    LinesCons(last, "");
    assert last + "\n" + "" == last + "\n";
    NoLines();
  }

  /** The configuration after `n` sessions that each appended their block and crashed. */
  function Leftovers(text: string, picker: string, n: nat): string {
    if n == 0 then text else WithBlock(Some(Leftovers(text, picker, n - 1)), picker)
  }

  lemma EndedEnds(text: string)
    ensures Ended(text) == "" || Ended(text)[|Ended(text)| - 1] == '\n'
  {
  }

  lemma OneMoreBlock(before: string, picker: string)
    requires '\n' !in picker
    ensures Configured(WithBlock(Some(before), picker), picker)
         == if Configured(before, picker).Some? then Configured(before, picker) else OwnFound(picker)
  {
    var initial := State(false, 0);
    assert Proper(initial);
    hide Lines, Block, OwnFound, Ended, Scan;
    EndedEnds(before);
    ScanEnded(before, initial, picker);
    ScanProper(Lines(Ended(before)), initial, picker);
    LinesAppend(Ended(before), Block(picker));
    ScanAppend(Lines(Ended(before)), Lines(Block(picker)), initial, picker);
    if Configured(before, picker).None? {
      ScanBlock(picker, Scan(Lines(Ended(before)), initial, picker).0);
    }
  }

  lemma {:induction false} ConfiguredWithLeftovers(text: string, picker: string, n: nat)
    requires '\n' !in picker
    ensures Configured(Leftovers(text, picker, n), picker)
         == if Configured(text, picker).Some? || n == 0 then Configured(text, picker) else OwnFound(picker)
  {
    hide Configured, OwnFound, WithBlock;
    if n > 0 {
      ConfiguredWithLeftovers(text, picker, n - 1);
      OneMoreBlock(Leftovers(text, picker, n - 1), picker);
    }
  }

  /**
   Main result: whatever the user's text, even one that leaves a brace open, blocks left behind by crashed sessions
   do not change the fallback picker, exactly when the text names a picker itself or the script's path is read back
   as that path, as nothing or as the default.
   */
  lemma LeftoversDoNotMatter(text: string, picker: string, n: nat)
    requires '\n' !in picker && n > 0
    ensures Original(Some(Leftovers(text, picker, n)), picker) == Original(Some(text), picker)
       <==> Configured(text, picker).Some? || Harmless(picker)
  {
    hide Configured, OwnValue, SamePath;
    ConfiguredWithLeftovers(text, picker, n);
  }

  lemma QuotesKept(s: string)
    requires s != "" ==> s[0] != '"' && s[|s| - 1] != '"'
    ensures TrimQuotes(s) == s
  {
  }

  lemma SamePathReflexive(path: string)
    ensures SamePath(path, path)
  {
  }

  /** A path free of `#`, with neither quotes nor white space at its edges, is read back as itself. */
  lemma PlainPathIsHarmless(picker: string)
    requires '#' !in picker && Trimmed(picker) && (picker != "" ==> picker[0] != '"' && picker[|picker| - 1] != '"')
    ensures OwnValue(picker) == picker && Harmless(picker)
  {
    TrimIdentity(picker);
    QuotesKept(picker);
    SamePathReflexive(picker);
    hide SamePath, TrimQuotes, Trim;
    assert SplitOn(picker, '#') == [picker];
  }
}
