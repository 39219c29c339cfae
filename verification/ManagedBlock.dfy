/**
 The block that is appended to the user's portal configuration while a session runs, and its removal.
 */
module ManagedBlocks {
  import opened Wrappers
  import opened Text

  const TITLE := " --- waycast: " + ("managed block, " + "restored on disconnect ---")
  const BLOCK_START := "#" + TITLE
  const BLOCK_END := "# --- end waycast block ---"

  const SECTION := "screencopy {"
  const PICKER_KEY := "    custom_picker_binary = "
  const TOKEN_LINE := "    allow_token_by_default = true"

  /** What stands between the two sentinel lines. */
  function Body(picker: string): string {
    SECTION + "\n" + ((PICKER_KEY + picker) + "\n" + (TOKEN_LINE + "\n" + "}"))
  }

  function BlockWith(start: string, body: string, end: string): string {
    "\n" + (start + "\n" + (body + "\n" + (end + "\n")))
  }

  function Block(picker: string): string {
    BlockWith(BLOCK_START, Body(picker), BLOCK_END)
  }

  /** The text with its last line ended. */
  function Ended(text: string): string {
    if text != "" && text[|text| - 1] != '\n' then text + "\n" else text
  }

  function WithBlock(existing: Option<string>, picker: string): string {
    Ended(if existing.Some? then existing.value else "") + Block(picker)
  }

  function StripBetween(content: string, start: string, end: string): Option<string> {
    match Find(content, start)
    case None => None
    case Some(i) =>
      match Find(content[i..], end)
      case None => None
      case Some(j) =>
        var k := i + j + |end|;
        var tail := if k < |content| && content[k] == '\n' then content[k + 1..] else content[k..];
        var head := if i > 0 && content[i - 1] == '\n' then content[..i - 1] else content[..i];
        Some(head + tail)
  }

  /** Removes exactly one block, if there is one. */
  function Strip(content: string): Option<string> {
    StripBetween(content, BLOCK_START, BLOCK_END)
  }

  // ---------- Searching line by line ----------

  /** Text before a line feed in which the pattern does not occur can be skipped. */
  lemma FindBehind(x: string, rest: string, pat: string)
    requires pat != "" && '\n' !in pat && !Contains(x, pat)
    ensures Find(x + "\n" + rest, pat) == match Find(rest, pat) case None => None case Some(i) => Some(|x| + 1 + i)
  {
    var s := x + "\n" + rest;
    forall j: nat ensures At(s, pat, j) <==> j > |x| && At(rest, pat, j - |x| - 1) {
      NotEarlier(x, rest, pat, j);
    }
    match Find(rest, pat)
    case None => FindNone(s, pat);
    case Some(i) => FindIs(s, pat, |x| + 1 + i);
  }

  lemma NotEarlier(x: string, rest: string, pat: string, j: nat)
    requires pat != "" && '\n' !in pat && !Contains(x, pat)
    ensures At(x + "\n" + rest, pat, j) <==> j > |x| && At(rest, pat, j - |x| - 1)
  {
    var s := x + "\n" + rest;
    if j > |x| {
      AtSuffix(x + "\n", rest, pat, j);
    } else if j + |pat| <= |x| {
      assert s == x + ("\n" + rest);
      AtPrefix(x, "\n" + rest, pat, j);
    } else if At(s, pat, j) {
      AtChars(s, pat, j, |x| - j);
      assert false;
    }
  }

  /** An occurrence before a line feed stays where it is. */
  lemma FindWithin(x: string, rest: string, pat: string)
    requires Contains(x, pat)
    ensures Find(x + rest, pat) == Find(x, pat)
  {
    var i := Find(x, pat).value;
    AtPrefix(x, rest, pat, i);
    forall j: nat | j < i ensures !At(x + rest, pat, j) {
      AtPrefix(x, rest, pat, j);
    }
    FindIs(x + rest, pat, i);
  }

  lemma FindFirst(pat: string, rest: string)
    ensures Find(pat + rest, pat) == Some(0)
  {
    assert (pat + rest)[..|pat|] == pat;
  }

  lemma NoHash(x: string, y: string, pat: string)
    requires pat != "" && pat[0] == '#' && '#' !in x
    ensures Contains(x + y, pat) <==> Contains(y, pat)
  {
    if Contains(x + y, pat) {
      var i := Find(x + y, pat).value;
      AtChars(x + y, pat, i, 0);
      assert forall j :: 0 <= j < |x| ==> (x + y)[j] == x[j] && x[j] in x;
      assert i >= |x|;
      AtSuffix(x, y, pat, i);
    }
    if Contains(y, pat) {
      AtSuffix(x, y, pat, |x| + Find(y, pat).value);
    }
  }

  lemma NothingInNothing(x: string, pat: string)
    requires pat != "" && pat[0] == '#' && '#' !in x
    ensures !Contains(x, pat)
  {
    NoHash(x, "", pat);
    assert x + "" == x;
  }

  // ---------- Removal undoes insertion ----------

  /** Sentinels are single lines, and the end sentinel does not occur in the start sentinel. */
  predicate Sentinels(start: string, end: string) {
    start != "" && end != "" && '\n' !in start && '\n' !in end && end[0] == '#' && !Contains(start, end)
  }

  /** The rest of the text from the start sentinel on. */
  function FromStart(start: string, body: string, end: string, b: string): string {
    start + "\n" + (body + "\n" + (end + ("\n" + b)))
  }

  lemma ContentIs(a: string, start: string, body: string, end: string, b: string)
    ensures a + BlockWith(start, body, end) + b == a + "\n" + FromStart(start, body, end, b)
  {
    var x := start + "\n" + (body + "\n" + (end + "\n"));
    EndBehind(body, end, b);
    PutBehind(start, body + "\n" + (end + "\n"), b);
    assert x + b == FromStart(start, body, end, b);
    hide FromStart;
    assert BlockWith(start, body, end) == "\n" + x;
    hide BlockWith;
    assert a + ("\n" + x) + b == a + "\n" + (x + b);
  }

  lemma EndBehind(body: string, end: string, b: string)
    ensures body + "\n" + (end + "\n") + b == body + "\n" + (end + ("\n" + b))
  {
  }

  lemma PutBehind(x: string, y: string, z: string)
    ensures x + "\n" + y + z == x + "\n" + (y + z)
  {
  }

  /** Where the first end sentinel stands after the start sentinel. */
  lemma EndFound(start: string, body: string, end: string, b: string)
    requires Sentinels(start, end)
    ensures Find(FromStart(start, body, end, b), end)
            == Some(|start| + 1 + if Contains(body, end) then Find(body, end).value else |body| + 1)
  {
    var tail := end + ("\n" + b);
    var inner := body + "\n" + tail;
    hide Find;
    FindBehind(start, inner, end);
    FindFirst(end, "\n" + b);
    if Contains(body, end) {
      assert inner == body + ("\n" + tail);
      FindWithin(body, "\n" + tail, end);
    } else {
      FindBehind(body, tail, end);
    }
  }

  lemma StartFound(a: string, start: string, body: string, end: string, b: string)
    requires Sentinels(start, end) && !Contains(a, start)
    ensures Find(a + "\n" + FromStart(start, body, end, b), start) == Some(|a| + 1)
  {
    hide Find;
    var rest := FromStart(start, body, end, b);
    FindBehind(a, rest, start);
    FindFirst(start, "\n" + (body + "\n" + (end + ("\n" + b))));
    assert rest == start + ("\n" + (body + "\n" + (end + ("\n" + b))));
  }

  /** What is left of a text when its sentinels are found. */
  lemma StripResult(a: string, rest: string, start: string, end: string, j: nat)
    requires Find(a + "\n" + rest, start) == Some(|a| + 1) && Find(rest, end) == Some(j)
    requires j + |end| < |rest|
    ensures StripBetween(a + "\n" + rest, start, end)
         == Some(a + rest[if rest[j + |end|] == '\n' then j + |end| + 1 else j + |end|..])
  {
    hide Find;
    var content := a + "\n" + rest;
    assert content[|a| + 1..] == rest && content[..|a|] == a && content[|a|] == '\n';
    var k := |a| + 1 + j + |end|;
    assert content[k] == rest[j + |end|];
    assert content[k..] == rest[j + |end|..] && content[k + 1..] == rest[j + |end| + 1..];
  }

  lemma LastPart(start: string, body: string, end: string, b: string)
    ensures var k := |start| + |body| + |end| + 2;
            && k < |FromStart(start, body, end, b)| == k + 1 + |b|
            && FromStart(start, body, end, b)[k] == '\n' && FromStart(start, body, end, b)[k + 1..] == b
  {
    var x := start + "\n" + (body + "\n" + end);
    assert FromStart(start, body, end, b) == x + ("\n" + b);
  }

  /** Stripping removes exactly the block when its body does not contain the end sentinel, and only then. */
  lemma StripBetweenUndoes(a: string, start: string, body: string, end: string, b: string)
    requires Sentinels(start, end) && !Contains(a, start)
    ensures StripBetween(a + BlockWith(start, body, end) + b, start, end) == Some(a + b) <==> !Contains(body, end)
  {
    var rest := FromStart(start, body, end, b);
    ContentIs(a, start, body, end, b);
    StartFound(a, start, body, end, b);
    EndFound(start, body, end, b);
    LastPart(start, body, end, b);
    hide Sentinels, BlockWith, FromStart, StripBetween;
    var j := |start| + 1 + if Contains(body, end) then Find(body, end).value else |body| + 1;
    assert Contains(body, end) ==> Find(body, end).value + |end| <= |body|;
    hide Contains, Find;
    StripResult(a, rest, start, end, j);
    var tail := rest[if rest[j + |end|] == '\n' then j + |end| + 1 else j + |end|..];
    if Contains(body, end) {
      assert |tail| > |b|;
      assert |a + tail| > |a + b|;
    } else {
      assert tail == b;
    }
  }

  lemma NotInSum(c: char, a: string, b: string)
    requires c !in a && c !in b
    ensures c !in a + b
  {
  }

  lemma TitleFront()
    ensures '\n' !in " --- waycast: " && '#' !in " --- waycast: "
  {
  }

  lemma TitleMiddle()
    ensures '\n' !in "managed block, " && '#' !in "managed block, "
  {
  }

  lemma TitleEnd()
    ensures '\n' !in "restored on disconnect ---" && '#' !in "restored on disconnect ---"
  {
  }

  lemma TitleIsPlain(c: char)
    requires c == '\n' || c == '#'
    ensures c !in TITLE
  {
    TitleFront();
    TitleMiddle();
    TitleEnd();
    NotInSum(c, "managed block, ", "restored on disconnect ---");
    NotInSum(c, " --- waycast: ", "managed block, " + "restored on disconnect ---");
  }

  lemma EndLine()
    ensures BLOCK_END != "" && '\n' !in BLOCK_END && BLOCK_END[0] == '#'
  {
  }

  lemma SingleLines()
    ensures BLOCK_START != "" && BLOCK_END != "" && '\n' !in BLOCK_START && '\n' !in BLOCK_END && BLOCK_END[0] == '#'
    ensures BLOCK_START[0] == '#'
  {
    hide BLOCK_END, TITLE;
    EndLine();
    TitleIsPlain('\n');
    assert '\n' !in "#";
  }

  lemma OneHash()
    ensures '#' !in BLOCK_START[1..]
  {
    hide TITLE;
    TitleIsPlain('#');
    assert BLOCK_START[1..] == TITLE;
  }

  lemma DifferentAtSix()
    ensures !At(BLOCK_START, BLOCK_END, 0)
  {
    if At(BLOCK_START, BLOCK_END, 0) {
      AtChars(BLOCK_START, BLOCK_END, 0, 6);
      assert false;
    }
  }

  lemma SentinelFacts()
    ensures Sentinels(BLOCK_START, BLOCK_END)
  {
    SingleLines();
    OneHash();
    DifferentAtSix();
    hide *;
    NothingInNothing(BLOCK_START[1..], BLOCK_END);
    FirstOrLater(BLOCK_START, BLOCK_END);
    SentinelsAre(BLOCK_START, BLOCK_END);
  }

  lemma SentinelsAre(start: string, end: string)
    requires start != "" && end != "" && '\n' !in start && '\n' !in end && end[0] == '#' && !Contains(start, end)
    ensures Sentinels(start, end)
  {
  }

  lemma FirstOrLater(s: string, pat: string)
    requires s != "" && !At(s, pat, 0) && !Contains(s[1..], pat)
    ensures !Contains(s, pat)
  {
    if Contains(s, pat) {
      var i := Find(s, pat).value;
      assert s == s[..1] + s[1..];
      AtSuffix(s[..1], s[1..], pat, i);
      assert false;
    }
  }

  lemma FourLines(first: string, second: string, rest: string, pat: string)
    requires pat != "" && '\n' !in pat && !Contains(first, pat) && !Contains(rest, pat)
    ensures Contains(first + "\n" + (second + "\n" + rest), pat) <==> Contains(second, pat)
  {
    hide Contains;
    NoStraddle(second, '\n', rest, pat);
    NoStraddle(first, '\n', second + "\n" + rest, pat);
  }

  /** The only place in the body where the end sentinel can occur is the picker's path. */
  lemma BodyContains(picker: string)
    ensures Contains(Body(picker), BLOCK_END) <==> Contains(picker, BLOCK_END)
  {
    SentinelFacts();
    var end := BLOCK_END;
    assert '#' !in SECTION && '#' !in PICKER_KEY && '#' !in TOKEN_LINE + "\n" + "}";
    hide Contains;
    NothingInNothing(SECTION, end);
    NothingInNothing(TOKEN_LINE + "\n" + "}", end);
    NoHash(PICKER_KEY, picker, end);
    FourLines(SECTION, PICKER_KEY + picker, TOKEN_LINE + "\n" + "}", end);
  }

  /**
   Main result: whatever was written before and after the block, removing it restores the text around it,
   exactly when the picker's path does not itself contain the end sentinel.
   */
  lemma StripUndoes(a: string, picker: string, b: string)
    requires !Contains(a, BLOCK_START)
    ensures Strip(a + Block(picker) + b) == Some(a + b) <==> !Contains(picker, BLOCK_END)
  {
    hide *;
    SentinelFacts();
    BodyContains(picker);
    BlockIs(picker);
    StripBetweenUndoes(a, BLOCK_START, Body(picker), BLOCK_END, b);
    StripIs(a + Block(picker) + b);
  }

  lemma BlockIs(picker: string)
    ensures Block(picker) == BlockWith(BLOCK_START, Body(picker), BLOCK_END)
  {
  }

  lemma StripIs(content: string)
    ensures Strip(content) == StripBetween(content, BLOCK_START, BLOCK_END)
  {
  }

  /** Text without a block, or whose block has lost its end, is left alone. */
  lemma NothingToStrip(content: string)
    requires !Contains(content, BLOCK_START) || !Contains(content, BLOCK_END)
    ensures Strip(content) == None
  {
    if Contains(content, BLOCK_START) {
      var i := Find(content, BLOCK_START).value;
      if Contains(content[i..], BLOCK_END) {
        assert content == content[..i] + content[i..];
        AtSuffix(content[..i], content[i..], BLOCK_END, i + Find(content[i..], BLOCK_END).value);
        assert false;
      }
    }
  }

  lemma EndedLosesStart(text: string)
    requires !Contains(text, BLOCK_START)
    ensures !Contains(Ended(text), BLOCK_START)
  {
    SentinelFacts();
    hide Contains;
    if Ended(text) != text {
      SentinelNotEmpty();
      NoStraddle(text, '\n', "", BLOCK_START);
      assert text + "\n" + "" == text + "\n";
    }
  }

  lemma SentinelNotEmpty()
    ensures !Contains("", BLOCK_START)
  {
  }

  /** Leftovers of several crashed sessions, each with the path of the picker of its time. */
  function Blocks(pickers: seq<string>): string {
    if pickers == [] then "" else Block(pickers[0]) + Blocks(pickers[1..])
  }

  function StripTimes(content: string, n: nat): Option<string> {
    if n == 0 then Some(content)
    else match Strip(content)
      case None => None
      case Some(stripped) => StripTimes(stripped, n - 1)
  }

  /** As many removals as there are leftover blocks restore the text. */
  lemma {:induction false} StripAll(a: string, pickers: seq<string>, b: string)
    requires !Contains(a, BLOCK_START) && forall picker :: picker in pickers ==> !Contains(picker, BLOCK_END)
    ensures StripTimes(a + Blocks(pickers) + b, |pickers|) == Some(a + b)
  {
    hide Contains, Block, Strip;
    if pickers == [] {
      assert a + "" + b == a + b;
    } else {
      assert pickers[0] in pickers && forall picker :: picker in pickers[1..] ==> picker in pickers;
      var rest := Blocks(pickers[1..]) + b;
      assert a + Blocks(pickers) + b == a + Block(pickers[0]) + rest;
      StripUndoes(a, pickers[0], rest);
      assert a + Blocks(pickers[1..]) + b == a + rest;
      StripAll(a, pickers[1..], b);
    }
  }

  /** A text that has white space only. */
  predicate Blank(text: string) {
    Trim(text) == ""
  }

  datatype ConfigError = ConfigWriteFailed

  /** The portal configuration file: its text, or that it does not exist. */
  class ConfigFile {
    var content: Option<string>

    constructor (content: Option<string>)
      ensures this.content == content
    {
      this.content := content;
    }

    /** Appends the block to the snapshot of the file taken before; an error leaves the file as it was. */
    method Write(picker: string, existing: Option<string>) returns (r: Result<(), ConfigError>)
      modifies this
      ensures r.Success? ==> content == Some(WithBlock(existing, picker))
      ensures r.Failure? ==> content == old(content)
    {
      var written: bool := *;
      if !written {
        return Failure(ConfigWriteFailed);
      }
      var config := if existing.Some? then existing.value else "";
      if config != "" && config[|config| - 1] != '\n' {
        config := config + "\n";
      }
      config := config + Block(picker);
      content := Some(config);
      return Success(());
    }

    /** Removes the block from the file as it stands now. */
    method Restore(original: Option<string>) returns (r: Result<(), ConfigError>)
      modifies this
      ensures old(content).None? || Strip(old(content).value).None? ==> r == Success(()) && content == old(content)
      ensures old(content).Some? && Strip(old(content).value).Some? && original.None? && Blank(Strip(old(content).value).value) ==>
                r == Success(()) && (content == None || content == old(content))
      ensures old(content).Some? && Strip(old(content).value).Some? && r.Success? && (original.Some? || !Blank(Strip(old(content).value).value)) ==>
                content == Strip(old(content).value)
      ensures r.Failure? ==> content == old(content)
    {
      if content.None? {
        return Success(());
      }
      var stripped := Strip(content.value);
      if stripped.None? {
        return Success(());
      }
      var done: bool := *;
      if Trim(stripped.value) == "" && original.None? {
        if done {
          content := None;
        }
      } else {
        if !done {
          return Failure(ConfigWriteFailed);
        }
        content := stripped;
      }
      return Success(());
    }

    /**
     A whole session: the block is written and later removed. The text is then the original with its last line ended, and
     where there was no file there is none, unless deleting it failed and left the block alone in it.
     */
    method WriteThenRestore(picker: string) returns (r: Result<(), ConfigError>)
      modifies this
      ensures (old(content).Some? ==> !Contains(old(content).value, BLOCK_START)) && !Contains(picker, BLOCK_END) && r.Success? ==>
                if old(content).Some? then content == Some(Ended(old(content).value))
                else content == None || content == Some(Block(picker))
      ensures r.Failure? ==> content == old(content) || content == Some(WithBlock(old(content), picker))
    {
      hide Contains, Block, Strip, Ended, Blank;
      var original := content;
      r := Write(picker, original);
      if r.Failure? {
        return;
      }
      if (original.Some? ==> !Contains(original.value, BLOCK_START)) && !Contains(picker, BLOCK_END) {
        WriteThenStrip(original, picker);
        OnlyBlock(picker);
      }
      r := Restore(original);
    }
  }

  lemma OnlyBlock(picker: string)
    ensures WithBlock(None, picker) == Block(picker)
  {
    hide Block;
    assert Ended("") == "" && "" + Block(picker) == Block(picker);
  }

  /** What writing and removing leave behind: the text with its last line ended, and nothing where nothing was. */
  lemma WriteThenStrip(existing: Option<string>, picker: string)
    requires existing.Some? ==> !Contains(existing.value, BLOCK_START)
    requires !Contains(picker, BLOCK_END)
    ensures Strip(WithBlock(existing, picker)) == Some(Ended(if existing.Some? then existing.value else ""))
    ensures existing.None? ==> Blank(Strip(WithBlock(existing, picker)).value)
  {
    var text := if existing.Some? then existing.value else "";
    SentinelNotEmpty();
    EndedLosesStart(text);
    hide Contains, Block, Strip;
    StripUndoes(Ended(text), picker, "");
    assert Ended(text) + Block(picker) + "" == Ended(text) + Block(picker);
    assert Ended(text) + "" == Ended(text);
  }
}
