/**
 What installing the private chain does to the lines of the rules file.
 */
module UfwLines {
  import opened Wrappers
  import opened Text
  import opened UfwHooks

  function Rows(s: string): (rows: seq<string>)
    ensures rows != []
  {
    SplitOn(s, '\n')
  }

  /** Every line of the text is ended. */
  predicate Ends(s: string) {
    s == "" || s[|s| - 1] == '\n'
  }

  /** The lines of a text that ends its last line. */
  function Whole(s: string): seq<string> {
    Rows(s)[..|Rows(s)| - 1]
  }

  /** The new lines are the old ones with the declaration's and the jump's lines put in between. */
  ghost predicate LinesInserted(text: string, installed: string) {
    exists a: nat, b: nat :: InsertedAt(text, installed, a, b)
  }

  predicate InsertedAt(text: string, installed: string, a: nat, b: nat) {
    && a <= b <= |Rows(text)|
    && Rows(installed) == Rows(text)[..a] + (Whole(DECL) + (Rows(text)[a..b] + (Whole(HOOK) + Rows(text)[b..])))
  }

  lemma {:induction false} RowsAppend(a: string, b: string)
    requires Ends(a)
    ensures Rows(a + b) == Whole(a) + Rows(b)
    ensures Rows(a) == Whole(a) + [""]
    decreases |a|
  {
    if a == "" {
      assert a + b == b;
      assert Rows("") == [""];
    } else {
      var line, rest := FirstLine(a);
      RowsAppend(rest, b);
      assert a == line + ['\n'] + rest;
      hide Rows, Ends;
      RowsStep(line, rest, b);
    }
  }

  lemma RowsStep(line: string, rest: string, b: string)
    requires '\n' !in line && Rows(rest + b) == Whole(rest) + Rows(b) && Rows(rest) == Whole(rest) + [""]
    ensures Rows(line + ['\n'] + rest + b) == Whole(line + ['\n'] + rest) + Rows(b)
    ensures Rows(line + ['\n'] + rest) == Whole(line + ['\n'] + rest) + [""]
  {
    hide Rows;
    RowsCons(line, rest);
    RowsCons(line, rest + b);
    assert line + ['\n'] + rest + b == line + ['\n'] + (rest + b);
    LastDropped([line], Rows(rest));
  }

  lemma RowsCons(line: string, rest: string)
    requires '\n' !in line
    ensures Rows(line + ['\n'] + rest) == [line] + Rows(rest)
  {
    SplitOnCons(line, '\n', rest);
  }

  lemma LastDropped(a: seq<string>, b: seq<string>)
    requires b != []
    ensures (a + b)[..|a + b| - 1] == a + b[..|b| - 1]
  {
  }

  /** Text put before a text joins that text's first line. */
  lemma RowsJoin(p: string, s: string)
    requires '\n' !in p
    ensures Rows(p + s) == [p + Rows(s)[0]] + Rows(s)[1..]
  {
    if '\n' in s {
      var i := IndexOf(s, '\n');
      assert s == s[..i] + ['\n'] + s[i + 1..];
      assert p + s == (p + s[..i]) + ['\n'] + s[i + 1..];
      SplitOnCons(s[..i], '\n', s[i + 1..]);
      SplitOnCons(p + s[..i], '\n', s[i + 1..]);
    }
  }

  lemma Parts(a: seq<string>, b: seq<string>, c: seq<string>)
    ensures var s := a + (b + c); s[..|a|] == a && s[|a|..|a| + |b|] == b && s[|a| + |b|..] == c
  {
  }

  /** At the start of a line the jump's lines are whole lines. */
  lemma WholeLines(x: string, y: string, z: string)
    requires Ends(x) && Ends(y) && Ends(DECL) && Ends(HOOK)
    ensures LinesInserted(x + (y + z), x + (DECL + (y + (HOOK + z))))
  {
    hide SplitOn, DECL, HOOK, Rows, Whole, Ends;
    RowsAppend(x, y + z);
    RowsAppend(y, z);
    RowsAppend(x, DECL + (y + (HOOK + z)));
    RowsAppend(DECL, y + (HOOK + z));
    RowsAppend(y, HOOK + z);
    RowsAppend(HOOK, z);
    Parts(Whole(x), Whole(y), Rows(z));
    assert InsertedAt(x + (y + z), x + (DECL + (y + (HOOK + z))), |Whole(x)|, |Whole(x)| + |Whole(y)|);
  }

  // ---------- Inside a line ----------

  lemma InsertedCounts(text: string, installed: string)
    requires LinesInserted(text, installed)
    ensures multiset(Rows(installed)) == multiset(Rows(text)) + multiset(Whole(DECL)) + multiset(Whole(HOOK))
  {
    var a: nat, b: nat :| InsertedAt(text, installed, a, b);
    hide SplitOn, Rows, Whole, DECL, HOOK;
    BagOfInserted(Rows(text), a, b, Whole(DECL), Whole(HOOK));
  }

  lemma BagOfInserted(rows: seq<string>, a: nat, b: nat, c: seq<string>, d: seq<string>)
    requires a <= b <= |rows|
    ensures multiset(rows[..a] + (c + (rows[a..b] + (d + rows[b..])))) == multiset(rows) + multiset(c) + multiset(d)
  {
    var x, y, z := rows[..a], rows[a..b], rows[b..];
    assert rows == x + (y + z);
    BagOfPieces(x, y, z, c, d);
  }

  lemma BagOfPieces(x: seq<string>, y: seq<string>, z: seq<string>, c: seq<string>, d: seq<string>)
    ensures multiset(x + (c + (y + (d + z)))) == multiset(x + (y + z)) + multiset(c) + multiset(d)
  {
  }

  /** The lines of a text before and after the jump is put inside the line `p + q`. */
  lemma BrokenLine(x: string, y: string, p: string, z: string)
    requires Ends(x) && Ends(y) && Ends(DECL) && Ends(HOOK) && Whole(HOOK) != [] && '\n' !in p
    ensures var q, h := Rows(z)[0], Whole(HOOK);
            && multiset(Rows(x + ((y + p) + z)))
               == multiset(Whole(x)) + multiset(Whole(y)) + multiset{p + q} + multiset(Rows(z)[1..])
            && multiset(Rows(x + (DECL + ((y + p) + (HOOK + z)))))
               == multiset(Whole(x)) + multiset(Whole(DECL)) + multiset(Whole(y)) + multiset{p + h[0]} + multiset(h[1..])
                  + multiset{q} + multiset(Rows(z)[1..])
  {
    hide SplitOn, DECL, HOOK, Rows, Whole, Ends;
    assert (y + p) + z == y + (p + z) && (y + p) + (HOOK + z) == y + (p + (HOOK + z));
    RowsAppend(x, y + (p + z));
    RowsAppend(y, p + z);
    RowsJoin(p, z);
    RowsAppend(x, DECL + (y + (p + (HOOK + z))));
    RowsAppend(DECL, y + (p + (HOOK + z)));
    RowsAppend(y, p + (HOOK + z));
    RowsJoin(p, HOOK + z);
    RowsAppend(HOOK, z);
    BagBefore(Whole(x), Whole(y), p, Rows(z));
    BagBroken(Whole(x), Whole(DECL), Whole(y), p, Whole(HOOK), Rows(z));
  }

  lemma BagBefore(x: seq<string>, y: seq<string>, p: string, z: seq<string>)
    requires z != []
    ensures multiset(x + (y + ([p + z[0]] + z[1..]))) == multiset(x) + multiset(y) + multiset{p + z[0]} + multiset(z[1..])
  {
  }

  lemma BagBroken(x: seq<string>, d: seq<string>, y: seq<string>, p: string, h: seq<string>, z: seq<string>)
    requires h != [] && z != []
    ensures multiset(x + (d + (y + ([p + (h + z)[0]] + (h + z)[1..]))))
         == multiset(x) + multiset(d) + multiset(y) + multiset{p + h[0]} + multiset(h[1..]) + multiset{z[0]} + multiset(z[1..])
  {
    assert (h + z)[0] == h[0] && (h + z)[1..] == h[1..] + ([z[0]] + z[1..]);
  }

  lemma Cancelled(common: multiset<string>, a: string, b: string, c: string, d: string)
    requires common + multiset{a} + multiset{b} == common + multiset{c} + multiset{d}
    ensures (a == c && b == d) || (a == d && b == c)
  {
    var left, right := common + multiset{a} + multiset{b}, common + multiset{c} + multiset{d};
    assert left[a] == right[a] && left[c] == right[c] && left[b] == right[b];
  }

  lemma Different(p: string, a: string, b: string)
    requires p != "" && a != b
    ensures p + a != p + b && p + a != a
  {
    assert (p + a)[|p|..] == a && (p + b)[|p|..] == b;
    assert |p + a| > |a|;
  }

  /** Inside a line the jump breaks that line: its front joins the jump's first line and its rest stands alone. */
  lemma LineBroken(x: string, y: string, p: string, z: string)
    requires Ends(x) && Ends(y) && Ends(DECL) && Ends(HOOK) && Whole(HOOK) != [] && '\n' !in p && p != ""
    requires Rows(z)[0] != Whole(HOOK)[0]
    ensures !LinesInserted(x + ((y + p) + z), x + (DECL + ((y + p) + (HOOK + z))))
  {
    hide SplitOn, DECL, HOOK, Rows, Whole, Ends;
    var text, installed := x + ((y + p) + z), x + (DECL + ((y + p) + (HOOK + z)));
    if LinesInserted(text, installed) {
      InsertedCounts(text, installed);
      BrokenLine(x, y, p, z);
      var q, h := Rows(z)[0], Whole(HOOK);
      assert h == [h[0]] + h[1..];
      var common := multiset(Whole(x)) + multiset(Whole(DECL)) + multiset(Whole(y)) + multiset(h[1..]) + multiset(Rows(z)[1..]);
      assert multiset(h) == multiset{h[0]} + multiset(h[1..]);
      assert multiset(Rows(installed)) == common + multiset{p + h[0]} + multiset{q};
      assert multiset(Rows(installed)) == common + multiset{p + q} + multiset{h[0]};
      Different(p, h[0], q);
      Cancelled(common, p + h[0], q, p + q, h[0]);
      assert false;
    }
  }

  // ---------- The installed text ----------

  lemma HookEnds()
    ensures HOOK != "" && HOOK[|HOOK| - 1] == '\n' && HOOK[0] == '#'
  {
    assert HOOK_END[|HOOK_END| - 1] == '\n' && HOOK_BEGIN[0] == '#';
  }

  lemma FirstOfHook()
    ensures Ends(DECL) && Ends(HOOK) && Whole(HOOK) != [] && Whole(HOOK)[0] != "" && Whole(HOOK)[0][0] == '#'
  {
    HookEnds();
    DeclEnds();
    hide DECL, HOOK;
    FirstRow(HOOK);
  }

  lemma FirstRow(s: string)
    requires s != "" && s[|s| - 1] == '\n' && s[0] != '\n'
    ensures Whole(s) != [] && Whole(s)[0] != "" && Whole(s)[0][0] == s[0]
  {
    var line, rest := FirstLine(s);
    assert s == line + ['\n'] + rest;
    SplitOnCons(line, '\n', rest);
    assert s[|line|] == '\n' && line != "";
    assert s[0] == line[0];
  }

  lemma RowStart(s: string)
    requires s != "" && s[0] != '\n'
    ensures Rows(s)[0] != "" && Rows(s)[0][0] == s[0]
  {
    if '\n' in s {
      var i := IndexOf(s, '\n');
      assert i > 0;
    }
  }

  predicate LineStart(text: string, j: nat)
    requires j <= |text|
  {
    j == 0 || text[j - 1] == '\n'
  }

  lemma Pieces(text: string, i: nat, j: nat)
    requires i <= j <= |text|
    ensures text == text[..i] + (text[i..j] + text[j..])
  {
  }

  /** Whether the lines stay whole is decided by the place of the jump. */
  lemma PlaceDecides(text: string, i: nat, j: nat)
    requires 0 < i <= j <= |text| && text[i - 1] == '\n' && (!LineStart(text, j) ==> j < |text| && text[j] != '\n' && text[j] != '#')
    ensures LinesInserted(text, text[..i] + (DECL + (text[i..j] + (HOOK + text[j..])))) <==> LineStart(text, j)
  {
    Pieces(text, i, j);
    Borders(text, i, j);
    FirstOfHook();
    hide DECL, HOOK, LinesInserted, Rows, Whole, Ends, LineStart;
    if LineStart(text, j) {
      WholeLines(text[..i], text[i..j], text[j..]);
    } else {
      JumpInside(text[..i], text[i..j], text[j..]);
    }
  }

  lemma Borders(text: string, i: nat, j: nat)
    requires 0 < i <= j <= |text| && text[i - 1] == '\n'
    ensures Ends(text[..i])
    ensures var y := text[i..j]; if LineStart(text, j) then Ends(y) else y != "" && y[|y| - 1] != '\n'
    ensures j < |text| ==> text[j..] != "" && text[j..][0] == text[j]
  {
  }

  lemma JumpInside(x: string, y: string, z: string)
    requires Ends(x) && y != "" && y[|y| - 1] != '\n' && z != "" && z[0] != '\n' && z[0] != '#'
    ensures !LinesInserted(x + (y + z), x + (DECL + (y + (HOOK + z))))
  {
    FirstOfHook();
    RowStart(z);
    hide DECL, HOOK, LinesInserted, Rows, Whole;
    var head, p := LastLine(y);
    assert Rows(z)[0][0] != Whole(HOOK)[0][0];
    LineBroken(x, head, p, z);
  }

  /** Installing succeeds and keeps every original line whole. */
  ghost predicate KeepsLines(text: string, result: Result<string, HookError>) {
    result.Success? && LinesInserted(text, result.value)
  }

  ghost predicate RulePrecedes(text: string, begin: nat, end: nat) {
    exists k: nat :: begin <= k && RuleAt(text, end, k)
  }

  /** A rule precedes the first `COMMIT` of the table, or that `COMMIT` starts a line. */
  ghost predicate EndsAtLine(text: string)
    requires Contains(text, FILTER) && TableEnd(text).Some?
  {
    || RulePrecedes(text, DeclPlace(text) - |FILTER|, TableEnd(text).value)
    || (TableEnd(text).value <= |text| && LineStart(text, TableEnd(text).value))
  }

  /** The jump starts a line exactly when a rule precedes the first `COMMIT` or that `COMMIT` starts a line. */
  lemma JumpStartsLine(text: string)
    requires Accepted(text)
    ensures HookPlace(text) <= |text| && Contains(text, FILTER) && TableEnd(text).Some?
    ensures LineStart(text, HookPlace(text)) <==> EndsAtLine(text)
    ensures !LineStart(text, HookPlace(text)) ==> HookPlace(text) < |text| && text[HookPlace(text)] == 'C'
  {
    AcceptedHas(text);
    JumpComesFirst(text);
    CommitThere(text);
    var begin, end, j := DeclPlace(text) - |FILTER|, TableEnd(text).value, HookPlace(text);
    assert 0 <= begin;
    hide Accepted, RulePrecedes, RuleAt, RulePatternAt, LineStart, DeclPlace, TableEnd, HookPlace, Contains, FILTER, COMMIT, At, Find,
      Count;
    RuleOrEnd(text, begin, end, j);
  }

  /**
   Main result: the installed lines are the original lines with the lines of the declaration and of the jump put in
   between, exactly when a rule precedes the first `COMMIT` of the table or that `COMMIT` starts a line.
   */
  lemma LinesStayWhole(text: string)
    requires Accepted(text)
    ensures KeepsLines(text, Install(text)) <==> EndsAtLine(text)
  {
    AcceptedHas(text);
    JumpStartsLine(text);
    PlaceStart(text);
    InstalledIs(text);
    hide Accepted, Install, EndsAtLine, LinesInserted, LineStart, DeclPlace, TableEnd, HookPlace, DECL, HOOK, Contains, FILTER;
    PlaceDecides(text, DeclPlace(text), HookPlace(text));
  }

  lemma AcceptedHas(text: string)
    requires Accepted(text)
    ensures Contains(text, FILTER) && TableEnd(text).Some?
  {
  }

  lemma InstalledIs(text: string)
    requires Accepted(text)
    ensures DeclPlace(text) <= HookPlace(text) <= |text|
    ensures Install(text) == Success(text[..DeclPlace(text)]
              + (DECL + (text[DeclPlace(text)..HookPlace(text)] + (HOOK + text[HookPlace(text)..]))))
  {
    hide *;
    InstallKeepsText(text);
  }

  lemma RuleOrEnd(text: string, begin: nat, end: nat, j: nat)
    requires begin < j <= end < |text| && text[end] == 'C'
    requires forall k: nat :: begin <= k && RulePatternAt(text, k) ==> j <= k + 1
    requires j == end || RuleAt(text, end, j - 1)
    ensures LineStart(text, j) <==> RulePrecedes(text, begin, end) || LineStart(text, end)
    ensures !LineStart(text, j) ==> text[j] == 'C'
  {
    hide RuleAt, RulePatternAt;
    if j != end {
      RuleStartsLine(text, end, j - 1);
    } else {
      forall k: nat | begin <= k ensures !RuleAt(text, end, k) {
        if RuleAt(text, end, k) {
          RuleIsPattern(text, end, k);
          assert false;
        }
      }
    }
  }

  lemma RuleIsPattern(text: string, end: nat, k: nat)
    requires RuleAt(text, end, k)
    ensures RulePatternAt(text, k) && k + 4 <= end
  {
  }

  lemma RuleStartsLine(text: string, end: nat, k: nat)
    requires RuleAt(text, end, k)
    ensures k < |text| && text[k] == '\n'
  {
    if At(text, "\n-A ", k) {
      AtChars(text, "\n-A ", k, 0);
    } else if At(text, "\n-I ", k) {
      AtChars(text, "\n-I ", k, 0);
    } else {
      AtChars(text, "\n-F ", k, 0);
    }
  }

  lemma CommitThere(text: string)
    requires Contains(text, FILTER) && TableEnd(text).Some?
    ensures TableEnd(text).value < |text| && text[TableEnd(text).value] == 'C'
  {
    var end := TableEnd(text).value;
    assert At(text, COMMIT, end);
    AtChars(text, COMMIT, end, 0);
    assert COMMIT[0] == 'C';
  }

  lemma PlaceStart(text: string)
    requires Contains(text, FILTER)
    ensures 0 < DeclPlace(text) <= |text| && text[DeclPlace(text) - 1] == '\n'
  {
    FilterStays(text);
    OpenedEnds(text, DeclPlace(text));
  }

  // ---------- A comment that names the end of the table ----------

  /** A file whose table has a line that mentions `COMMIT` behind other text, before any rule. */
  function Mentions(middle: string, rest: string): string {
    FILTER + middle + (COMMIT + rest)
  }

  lemma FilterFirst(middle: string, rest: string)
    requires '*' !in middle && '*' !in COMMIT + rest
    ensures Find(Mentions(middle, rest), FILTER) == Some(0) && Count(Mentions(middle, rest), FILTER) == 1
  {
    var text := Mentions(middle, rest);
    assert text == FILTER + (middle + (COMMIT + rest));
    var tail := middle + (COMMIT + rest);
    assert text[0..|FILTER|] == FILTER && text[|FILTER|..] == tail;
    FindIs(text, FILTER, 0);
    assert FILTER[0] == '*';
    NotWithout(tail, FILTER);
    CountNext(text, FILTER, 0);
    CountNone(tail, FILTER);
  }

  lemma NotWithout(s: string, pat: string)
    requires pat != "" && pat[0] !in s
    ensures !Contains(s, pat)
  {
    if Contains(s, pat) {
      AtChars(s, pat, Find(s, pat).value, 0);
      assert false;
    }
  }

  lemma CommitAfter(middle: string, rest: string)
    requires 'C' !in FILTER + middle
    ensures FindFrom(Mentions(middle, rest), COMMIT, 0) == Some(|FILTER + middle|)
  {
    var head := FILTER + middle;
    var text := head + (COMMIT + rest);
    assert text[|head|..|head| + |COMMIT|] == COMMIT;
    assert COMMIT[0] == 'C';
    forall j: nat | j < |head| ensures !At(text, COMMIT, j) {
      assert text[j] == head[j] && head[j] in head;
      OtherFirst(text, COMMIT, j);
    }
    FindFromIs(text, COMMIT, 0, |head|);
  }

  lemma NoRuleBefore(head: string, rest: string, k: nat)
    requires NoDashLine(head)
    ensures !RuleAt(head + rest, |head|, k)
  {
    if RuleAt(head + rest, |head|, k) {
      RuleIsPattern(head + rest, |head|, k);
      PatternChars(head + rest, k);
      RuleStartsLine(head + rest, |head|, k);
      assert false;
    }
  }

  /** Such a file is accepted, and the jump is put inside that line. */
  lemma MentionBreaks(middle: string, rest: string)
    requires '*' !in middle && '*' !in COMMIT + rest && 'C' !in FILTER + middle && NoDashLine(FILTER + middle)
    requires middle != "" && middle[|middle| - 1] != '\n'
    requires Contains(Mentions(middle, rest), ":ufw-before-input ") && !Contains(Mentions(middle, rest), "waycast-input")
    ensures Accepted(Mentions(middle, rest)) && !KeepsLines(Mentions(middle, rest), Install(Mentions(middle, rest)))
  {
    var head, text := FILTER + middle, Mentions(middle, rest);
    FilterFirst(middle, rest);
    CommitAfter(middle, rest);
    AcceptedIs(text, |head|);
    assert text[|head| - 1] == middle[|middle| - 1];
    forall k: nat ensures !RuleAt(text, |head|, k) {
      NoRuleBefore(head, COMMIT + rest, k);
    }
    hide RuleAt, Accepted, Install, KeepsLines, NoDashLine, Contains, Find, FindFrom;
    LinesStayWhole(text);
  }

  lemma AcceptedIs(text: string, end: nat)
    requires Count(text, FILTER) == 1 && Find(text, FILTER) == Some(0) && FindFrom(text, COMMIT, 0) == Some(end)
    requires Contains(text, ":ufw-before-input ") && !Contains(text, "waycast-input")
    ensures Accepted(text) && DeclPlace(text) == |FILTER| && TableEnd(text) == Some(end)
  {
    hide Count, Find, FindFrom;
  }

  const STOCK_CHAIN := ":ufw-before-input - [0:0]\n"
  const COMMENT := "# keep "
  const RULE := "-A ufw-before-input -i lo -j ACCEPT\n"

  lemma StockChainPiece()
    ensures '*' !in STOCK_CHAIN && 'C' !in STOCK_CHAIN && NoDashLine(STOCK_CHAIN) && STOCK_CHAIN != "" && STOCK_CHAIN[0] == ':'
  {
  }

  lemma CommentPiece()
    ensures '*' !in COMMENT && 'C' !in COMMENT && NoDashLine(COMMENT)
    ensures COMMENT != "" && COMMENT[|COMMENT| - 1] == ' ' && COMMENT[0] == '#'
  {
  }

  lemma RulePiece()
    ensures '*' !in RULE
  {
  }

  lemma StockPieces()
    ensures '*' !in STOCK_CHAIN && '*' !in COMMENT && '*' !in COMMIT && '*' !in " last\n" && '*' !in RULE && '*' !in "COMMIT\n"
    ensures 'C' !in FILTER && 'C' !in STOCK_CHAIN && 'C' !in COMMENT
    ensures NoDashLine(STOCK_CHAIN) && NoDashLine(COMMENT)
    ensures COMMENT != "" && STOCK_CHAIN != "" && COMMENT[|COMMENT| - 1] == ' ' && COMMENT[0] == '#' && STOCK_CHAIN[0] == ':'
  {
    StockChainPiece();
    CommentPiece();
    RulePiece();
    hide STOCK_CHAIN, COMMENT, RULE, NoDashLine;
  }

  lemma Edges(a: string, b: string)
    requires a != "" && b != ""
    ensures (a + b)[0] == a[0] && (a + b)[|a + b| - 1] == b[|b| - 1]
  {
  }

  lemma NoLetter()
    ensures 'y' !in FILTER && 'y' !in STOCK_CHAIN && 'y' !in COMMENT && 'y' !in COMMIT && 'y' !in " last\n" && 'y' !in RULE && 'y' !in "COMMIT\n"
  {
  }

  lemma StockName(rest: string)
    ensures Contains(FILTER + (STOCK_CHAIN + rest), ":ufw-before-input ")
  {
    var name := ":ufw-before-input ";
    assert STOCK_CHAIN == name + "- [0:0]\n";
    FilterIs();
    var text := FILTER + (STOCK_CHAIN + rest);
    assert text == (FILTER + name) + ("- [0:0]\n" + rest);
    assert At(FILTER + name, name, 8) by {
      AtSuffix(FILTER, name, name, 8);
      assert name[0..|name|] == name;
    }
    AtPrefix(FILTER + name, "- [0:0]\n" + rest, name, 8);
  }

  lemma NoCollision(s: string)
    requires 'y' !in s
    ensures !Contains(s, "waycast-input")
  {
    if Contains(s, "waycast-input") {
      var k := Find(s, "waycast-input").value;
      AtChars(s, "waycast-input", k, 2);
      assert false;
    }
  }

  /** A concrete such file: a comment before the rules that says where `COMMIT` belongs. */
  lemma CommentIsBroken()
    ensures var text := Mentions(STOCK_CHAIN + COMMENT, " last\n" + (RULE + "COMMIT\n"));
            && text == "*filter\n" + ":ufw-before-input - [0:0]\n" + "# keep COMMIT last\n"
                       + ("-A ufw-before-input -i lo -j ACCEPT\n" + "COMMIT\n")
            && Accepted(text) && !KeepsLines(text, Install(text))
  {
    BrokenText(STOCK_CHAIN, RULE);
    StockTexts();
    var middle, rest := STOCK_CHAIN + COMMENT, " last\n" + (RULE + "COMMIT\n");
    StockPieces();
    NoLetter();
    DeclPieces();
    hide *;
    NoDashSum(STOCK_CHAIN, COMMENT);
    Edges(STOCK_CHAIN, COMMENT);
    FilterKeeps(middle);
    StockName(COMMENT + (COMMIT + rest));
    MentionsIs(middle, rest, COMMENT);
    NoCollision(Mentions(middle, rest));
    MentionBreaks(middle, rest);
  }

  lemma BrokenText(chain: string, rule: string)
    ensures Mentions(chain + COMMENT, " last\n" + (rule + "COMMIT\n")) == "*filter\n" + chain + "# keep COMMIT last\n" + (rule + "COMMIT\n")
  {
    assert COMMENT + (COMMIT + " last\n") == "# keep COMMIT last\n";
    Reassociated(FILTER, chain, COMMENT, COMMIT, " last\n", rule + "COMMIT\n");
  }

  lemma Reassociated(a: string, b: string, c: string, d: string, e: string, f: string)
    ensures a + (b + c) + (d + (e + f)) == a + b + (c + (d + e)) + f
  {
  }

  lemma StockTexts()
    ensures STOCK_CHAIN == ":ufw-before-input - [0:0]\n" && RULE == "-A ufw-before-input -i lo -j ACCEPT\n"
  {
  }

  lemma FilterKeeps(middle: string)
    requires NoDashLine(middle) && middle != "" && middle[0] == ':'
    ensures NoDashLine(FILTER + middle)
  {
    DeclPieces();
    NoDashSum(FILTER, middle);
  }

  lemma MentionsIs(middle: string, rest: string, comment: string)
    requires middle == STOCK_CHAIN + comment
    requires 'y' !in FILTER && 'y' !in middle && 'y' !in COMMIT && 'y' !in rest
    ensures Mentions(middle, rest) == FILTER + (STOCK_CHAIN + (comment + (COMMIT + rest)))
    ensures 'y' !in Mentions(middle, rest)
  {
  }
}
