/**
 Installing the private chain and its jump into the administrator's firewall rules file, and taking both out again.
 */
module UfwHooks {
  import opened Wrappers
  import opened Text

  const CHAIN_BEGIN := "# BEGIN WAYCAST CHAIN\n"
  const CHAIN_END := "# END WAYCAST CHAIN\n"
  const CHAIN_LINE := ":waycast-input - [0:0]\n"
  const HOOK_BEGIN := "# BEGIN WAYCAST HOOK\n"
  const HOOK_END := "# END WAYCAST HOOK\n"
  const HOOK_LINES := "-F waycast-input\n" + "-A ufw-before-input -j waycast-input\n"

  const DECL := CHAIN_BEGIN + (CHAIN_LINE + CHAIN_END)
  const HOOK := HOOK_BEGIN + (HOOK_LINES + HOOK_END)

  const FILTER := "*filter\n"
  const COMMIT := "COMMIT"

  datatype HookError = IncompleteMarker | InvalidMarkers | NotStock | Collision | NoCommit

  /** `str.count`: occurrences that do not overlap, from left to right. */
  function Count(s: string, pat: string): nat
    requires pat != ""
    decreases |s|
  {
    match Find(s, pat)
    case None => 0
    case Some(i) => 1 + Count(s[i + |pat|..], pat)
  }

  function RemoveBlock(text: string, begin: string, end: string): Result<string, HookError>
    requires begin != "" && end != ""
  {
    if !Contains(text, begin) then
      if Contains(text, end) then Failure(IncompleteMarker) else Success(text)
    else if Count(text, begin) != 1 || Count(text, end) != 1 then Failure(InvalidMarkers)
    else
      var first := Find(text, begin).value;
      match FindFrom(text, end, first)
      case None => Failure(InvalidMarkers)
      case Some(last) => Success(text[..first] + text[last + |end|..])
  }

  function Remove(text: string): Result<string, HookError> {
    match RemoveBlock(text, CHAIN_BEGIN, CHAIN_END)
    case Failure(error) => Failure(error)
    case Success(stripped) => RemoveBlock(stripped, HOOK_BEGIN, HOOK_END)
  }

  function Least(a: Option<nat>, b: Option<nat>): Option<nat> {
    match (a, b)
    case (Some(x), Some(y)) => Some(if x < y then x else y)
    case (Some(x), None) => a
    case (None, _) => b
  }

  /** The first line after `begin` and before `end` that adds, inserts or flushes rules; otherwise `end`. */
  function FirstRule(s: string, begin: nat, end: nat): (place: nat)
    requires begin <= end <= |s|
    ensures place <= end
  {
    var part := s[..end];
    match Least(Least(FindFrom(part, "\n-A ", begin), FindFrom(part, "\n-I ", begin)), FindFrom(part, "\n-F ", begin))
    case Some(p) => p + 1
    case None => end
  }

  function Install(text: string): Result<string, HookError> {
    if Count(text, FILTER) != 1 || !Contains(text, ":ufw-before-input ") then Failure(NotStock)
    else if Contains(text, "waycast-input") then Failure(Collision)
    else
      match Find(text, FILTER)
      case None => Failure(NotStock)
      case Some(begin) => InsertJump(Declared(text, begin + |FILTER|))
  }

  /** The declaration is put behind the line that opens the table. */
  function Declared(text: string, i: nat): string
    requires i <= |text|
  {
    text[..i] + DECL + text[i..]
  }

  function InsertJump(with: string): Result<string, HookError> {
    match Find(with, FILTER)
    case None => Failure(NotStock)
    case Some(begin) =>
      match FindFrom(with, COMMIT, begin)
      case None => Failure(NoCommit)
      case Some(end) =>
        var index := FirstRule(with, begin, end);
        Success(with[..index] + HOOK + with[index..])
  }

  function Hook(text: string, remove: bool): Result<string, HookError> {
    match Remove(text)
    case Failure(error) => Failure(error)
    case Success(stripped) => if remove then Success(stripped) else Install(stripped)
  }

  // ---------- Markers ----------

  /** A marker is a whole line that starts with its only `#`. */
  predicate IsMarker(m: string) {
    |m| > 1 && m[0] == '#' && m[|m| - 1] == '\n'
    && (forall k :: 0 < k < |m| ==> m[k] != '#') && (forall k :: 0 <= k < |m| - 1 ==> m[k] != '\n')
  }

  /** Nothing that looks like a marker can cross from the one text into the other. */
  predicate Apart(x: string, y: string) {
    x == "" || y == "" || x[|x| - 1] == '\n' || y[0] == '#'
  }

  lemma NoCrossing(x: string, y: string, m: string, k: nat)
    requires IsMarker(m) && Apart(x, y)
    ensures At(x + y, m, k) <==> At(x, m, k) || (|x| <= k && At(y, m, k - |x|))
  {
    if |x| <= k {
      AtSuffix(x, y, m, k);
    } else if k + |m| <= |x| {
      AtPrefix(x, y, m, k);
    } else if At(x + y, m, k) {
      if x[|x| - 1] == '\n' {
        AtChars(x + y, m, k, |x| - 1 - k);
      } else {
        AtChars(x + y, m, k, |x| - k);
      }
      assert false;
    }
  }

  lemma ContainsApart(x: string, y: string, m: string)
    requires IsMarker(m) && Apart(x, y)
    ensures Contains(x + y, m) <==> Contains(x, m) || Contains(y, m)
  {
    hide At, IsMarker, Apart;
    forall k: nat ensures At(x + y, m, k) <==> At(x, m, k) || (|x| <= k && At(y, m, k - |x|)) {
      NoCrossing(x, y, m, k);
    }
    if Contains(y, m) {
      var k := Find(y, m).value;
      assert At(y, m, |x| + k - |x|);
      assert At(x + y, m, |x| + k);
    }
  }

  lemma FindApart(x: string, y: string, m: string)
    requires IsMarker(m) && Apart(x, y)
    ensures Find(x + y, m)
         == match Find(x, m)
            case Some(k) => Some(k)
            case None => match Find(y, m) case Some(k) => Some(|x| + k) case None => None
  {
    assert m != "";
    assert Find(x, m).Some? ==> Find(x, m).value + |m| <= |x|;
    hide At, IsMarker, Apart;
    forall k: nat ensures At(x + y, m, k) <==> At(x, m, k) || (|x| <= k && At(y, m, k - |x|)) {
      NoCrossing(x, y, m, k);
    }
    match Find(x, m)
    case Some(k) => FindIs(x + y, m, k);
    case None =>
      match Find(y, m)
      case Some(k) =>
        assert At(x + y, m, |x| + k);
        FindIs(x + y, m, |x| + k);
      case None => FindNone(x + y, m);
  }

  lemma {:induction false} CountApart(x: string, y: string, m: string)
    requires IsMarker(m) && Apart(x, y)
    ensures Count(x + y, m) == Count(x, m) + Count(y, m)
    decreases |x|
  {
    assert m != "";
    if Find(x, m).None? {
      CountNone(x, m);
      CountBehind(x, y, m);
    } else {
      var k := Find(x, m).value;
      assert Apart(x[k + |m|..], y);
      hide IsMarker, Apart, Count, At;
      FindApart(x, y, m);
      CountNext(x, m, k);
      CountNext(x + y, m, k);
      assert (x + y)[k + |m|..] == x[k + |m|..] + y;
      CountApart(x[k + |m|..], y, m);
    }
  }

  lemma CountBehind(x: string, y: string, m: string)
    requires IsMarker(m) && Apart(x, y) && Find(x, m) == None
    ensures Count(x + y, m) == Count(y, m)
  {
    assert m != "";
    FindApart(x, y, m);
    if Find(y, m).Some? {
      CountMoved(x, y, m, Find(y, m).value);
    } else {
      CountNone(y, m);
      CountNone(x + y, m);
    }
  }

  lemma CountMoved(x: string, y: string, m: string, k: nat)
    requires m != "" && Find(y, m) == Some(k) && Find(x + y, m) == Some(|x| + k)
    ensures Count(x + y, m) == Count(y, m)
  {
    hide *;
    CountNext(y, m, k);
    CountNext(x + y, m, |x| + k);
    assert (x + y)[|x| + k + |m|..] == y[k + |m|..];
  }

  lemma CountNext(s: string, m: string, k: nat)
    requires m != "" && Find(s, m) == Some(k)
    ensures k + |m| <= |s| && Count(s, m) == 1 + Count(s[k + |m|..], m)
  {
  }

  lemma CountSelf(m: string)
    requires IsMarker(m)
    ensures Count(m, m) == 1 && Find(m, m) == Some(0)
  {
    assert m[0..|m|] == m && m[|m|..] == "";
    assert Find(m, m) == Some(0);
  }

  lemma CountNone(s: string, m: string)
    requires m != ""
    ensures Count(s, m) == 0 <==> !Contains(s, m)
  {
  }

  /** A text without `#` holds no marker. */
  lemma NoMarker(s: string, m: string)
    requires IsMarker(m) && '#' !in s
    ensures !Contains(s, m)
  {
    if Contains(s, m) {
      AtChars(s, m, Find(s, m).value, 0);
      assert false;
    }
  }

  /** Different markers do not hold each other. */
  lemma OtherMarker(m: string, other: string)
    requires IsMarker(m) && IsMarker(other) && m != other
    ensures !Contains(other, m)
  {
    forall k: nat ensures !At(other, m, k) {
      if At(other, m, k) {
        MarkerInside(m, other, k);
        assert false;
      }
    }
  }

  lemma MarkerInside(m: string, other: string, k: nat)
    requires IsMarker(m) && IsMarker(other) && At(other, m, k)
    ensures m == other
  {
    AtChars(other, m, k, 0);
    AtChars(other, m, k, |m| - 1);
    assert k == 0;
    assert k + |m| - 1 == |other| - 1;
    assert other[0..|other|] == other;
  }

  predicate Free(text: string, begin: string, end: string)
    requires begin != "" && end != ""
  {
    !Contains(text, begin) && !Contains(text, end)
  }

  /** How a marker occurs in a text that has one block. */
  lemma MarkersOnce(a: string, begin: string, body: string, end: string, b: string)
    requires IsMarker(begin) && IsMarker(end) && begin != end && '#' !in body
    requires Free(a, begin, end) && Free(b, begin, end)
    ensures var text := a + (begin + (body + (end + b)));
            Find(text, begin) == Some(|a|) && Count(text, begin) == 1 && Count(text, end) == 1
            && Find(text, end) == Some(|a| + |begin| + |body|)
  {
    OtherMarker(begin, end);
    OtherMarker(end, begin);
    NoMarker(body, begin);
    NoMarker(body, end);
    CountSelf(begin);
    CountSelf(end);
    var third := end + b;
    var second := body + third;
    var first := begin + second;
    assert Apart(end, b) && Apart(body, third) && Apart(begin, second) && Apart(a, first);
    hide IsMarker, Apart, Find, Count, At;
    OneOf(begin, a, begin, body, end, b);
    OneOf(end, a, begin, body, end, b);
  }

  lemma OneOf(m: string, a: string, begin: string, body: string, end: string, b: string)
    requires IsMarker(m) && IsMarker(begin) && IsMarker(end) && Apart(body, end + b)
    requires Apart(end, b) && Apart(begin, body + (end + b)) && Apart(a, begin + (body + (end + b)))
    requires !Contains(a, m) && !Contains(body, m) && !Contains(b, m)
    requires (m == begin && !Contains(end, m)) || (m == end && !Contains(begin, m))
    ensures var text := a + (begin + (body + (end + b)));
            Count(text, m) == 1 && Find(text, m) == Some(if m == begin then |a| else |a| + |begin| + |body|)
  {
    CountOnce(m, a, begin, body, end, b);
    hide IsMarker, Apart, Count, FindFrom;
    if m == end {
      FindEnd(a, begin, body, end, b);
    } else {
      FindBegin(a, begin, body + (end + b));
    }
  }

  lemma FindBegin(a: string, begin: string, rest: string)
    requires IsMarker(begin) && Apart(begin, rest) && Apart(a, begin + rest) && Find(a, begin) == None
    ensures Find(a + (begin + rest), begin) == Some(|a|)
  {
    CountSelf(begin);
    hide *;
    FindApart(begin, rest, begin);
    FindSkips(a, begin + rest, begin, 0);
  }

  lemma FindEnd(a: string, begin: string, body: string, end: string, b: string)
    requires IsMarker(end) && Apart(body, end + b) && Apart(end, b) && Apart(begin, body + (end + b))
    requires Apart(a, begin + (body + (end + b)))
    requires Find(a, end) == Find(begin, end) == Find(body, end) == None
    ensures Find(a + (begin + (body + (end + b))), end) == Some(|a| + |begin| + |body|)
  {
    CountSelf(end);
    hide *;
    FindApart(end, b, end);
    FindBehindThree(a, begin, body, end + b, end);
  }

  lemma FindBehindThree(a: string, begin: string, body: string, rest: string, m: string)
    requires IsMarker(m) && Apart(body, rest) && Apart(begin, body + rest) && Apart(a, begin + (body + rest))
    requires Find(a, m) == Find(begin, m) == Find(body, m) == None && Find(rest, m) == Some(0)
    ensures Find(a + (begin + (body + rest)), m) == Some(|a| + |begin| + |body|)
  {
    hide *;
    FindSkips(body, rest, m, 0);
    FindSkips(begin, body + rest, m, |body|);
    FindSkips(a, begin + (body + rest), m, |begin| + |body|);
  }

  lemma FindSkips(x: string, y: string, m: string, k: nat)
    requires IsMarker(m) && Apart(x, y) && Find(x, m) == None && Find(y, m) == Some(k)
    ensures Find(x + y, m) == Some(|x| + k)
  {
    FindApart(x, y, m);
  }

  lemma CountOnce(m: string, a: string, begin: string, body: string, end: string, b: string)
    requires IsMarker(m) && IsMarker(begin) && IsMarker(end) && Apart(body, end + b)
    requires Apart(end, b) && Apart(begin, body + (end + b)) && Apart(a, begin + (body + (end + b)))
    requires !Contains(a, m) && !Contains(body, m) && !Contains(b, m)
    requires (m == begin && !Contains(end, m)) || (m == end && !Contains(begin, m))
    ensures Count(a + (begin + (body + (end + b))), m) == 1
  {
    CountSelf(m);
    assert m != "";
    hide IsMarker, Apart, Find, Count, Contains;
    CountNone(a, m);
    CountNone(body, m);
    CountNone(b, m);
    CountNone(begin, m);
    CountNone(end, m);
    CountApart(end, b, m);
    CountApart(body, end + b, m);
    CountApart(begin, body + (end + b), m);
    CountApart(a, begin + (body + (end + b)), m);
  }

  /** Taking out the only block leaves what stood before and after it. */
  lemma RemoveUndoes(a: string, begin: string, body: string, end: string, b: string)
    requires IsMarker(begin) && IsMarker(end) && begin != end && '#' !in body
    requires Free(a, begin, end) && Free(b, begin, end)
    ensures RemoveBlock(a + (begin + (body + (end + b))), begin, end) == Success(a + b)
  {
    var text := a + (begin + (body + (end + b)));
    MarkersOnce(a, begin, body, end, b);
    var last := |a| + |begin| + |body|;
    assert begin != "" && end != "";
    hide *;
    FindFromFirst(text, end, |a|, last);
    AroundBlock(a, begin, body, end, b);
    RemoveIs(text, begin, end, |a|, last, a, b);
  }

  lemma FindFromFirst(s: string, pat: string, from: nat, k: nat)
    requires from <= k && Find(s, pat) == Some(k)
    ensures FindFrom(s, pat, from) == Some(k) && k + |pat| <= |s|
  {
  }

  lemma RemoveIs(text: string, begin: string, end: string, first: nat, last: nat, a: string, b: string)
    requires begin != "" && end != "" && Count(text, begin) == 1 && Count(text, end) == 1
    requires Find(text, begin) == Some(first) && first <= |text| && FindFrom(text, end, first) == Some(last) && last + |end| <= |text|
    requires text[..first] == a && text[last + |end|..] == b
    ensures RemoveBlock(text, begin, end) == Success(a + b)
  {
    hide Count, FindFrom;
  }

  lemma AroundBlock(a: string, begin: string, body: string, end: string, b: string)
    ensures var text := a + (begin + (body + (end + b)));
            text[..|a|] == a && text[|a| + |begin| + |body| + |end|..] == b
  {
    assert a + (begin + (body + (end + b))) == (a + begin + body + end) + b;
  }

  lemma NothingToRemove(text: string, begin: string, end: string)
    requires begin != "" && end != "" && Free(text, begin, end)
    ensures RemoveBlock(text, begin, end) == Success(text)
  {
  }

  lemma ChainMarkers()
    ensures IsMarker(CHAIN_BEGIN) && IsMarker(CHAIN_END) && CHAIN_BEGIN != CHAIN_END && '#' !in CHAIN_LINE
  {
    assert CHAIN_BEGIN[2] == 'B' && CHAIN_END[2] == 'E';
  }

  lemma HookBeginMarks()
    ensures IsMarker(HOOK_BEGIN) && HOOK_BEGIN[2] == 'B'
  {
  }

  lemma HookEndMarks()
    ensures IsMarker(HOOK_END) && HOOK_END[2] == 'E'
  {
  }

  lemma HookLinesPlain()
    ensures '#' !in HOOK_LINES
  {
  }

  lemma HookMarkers()
    ensures IsMarker(HOOK_BEGIN) && IsMarker(HOOK_END) && HOOK_BEGIN != HOOK_END && '#' !in HOOK_LINES
  {
    HookBeginMarks();
    HookEndMarks();
    HookLinesPlain();
    hide *;
  }

  lemma MarkersDiffer()
    ensures CHAIN_BEGIN != HOOK_BEGIN && CHAIN_BEGIN != HOOK_END && CHAIN_END != HOOK_BEGIN && CHAIN_END != HOOK_END
  {
    assert CHAIN_BEGIN[2] == 'B' && CHAIN_END[2] == 'E' && HOOK_BEGIN[2] == 'B' && HOOK_END[2] == 'E';
    assert |CHAIN_BEGIN| == 22 && |HOOK_BEGIN| == 21 && |CHAIN_END| == 20 && |HOOK_END| == 19;
  }

  // ---------- Where things are put ----------

  lemma FindFromIs(s: string, pat: string, from: nat, k: nat)
    requires from <= k && At(s, pat, k) && forall j: nat :: from <= j < k ==> !At(s, pat, j)
    ensures FindFrom(s, pat, from) == Some(k)
  {
  }

  lemma FindFromNone(s: string, pat: string, from: nat)
    requires forall j: nat :: from <= j ==> !At(s, pat, j)
    ensures FindFrom(s, pat, from) == None
  {
  }

  function Shift(place: Option<nat>, n: nat): Option<nat> {
    match place case None => None case Some(k) => Some(k + n)
  }

  /** Behind the insertion everything is found where it was, moved. */
  lemma ShiftedBehind(text: string, decl: string, i: nat, pat: string, k: nat)
    requires 0 < i <= |text| && text[i - 1] == '\n' && decl != "" && decl[|decl| - 1] == '\n' && i - 1 <= k
    ensures At(text[..i] + decl + text[i..], pat, k + |decl|) <==> At(text, pat, k)
  {
    var with := text[..i] + decl + text[i..];
    var a := text[..i] + decl[..|decl| - 1];
    var b := text[i - 1..];
    assert b == ['\n'] + text[i..];
    assert decl == decl[..|decl| - 1] + ['\n'];
    assert with == a + b;
    AtSuffix(a, b, pat, k + |decl|);
    assert text == text[..i - 1] + b;
    AtSuffix(text[..i - 1], b, pat, k);
  }

  /** A search that finds nothing in the inserted text nor in the line before it finds the same place, moved. */
  lemma FindShifted(text: string, decl: string, i: nat, pat: string, from: nat)
    requires 0 < i <= |text| && text[i - 1] == '\n' && decl != "" && decl[|decl| - 1] == '\n' && from < i
    requires forall k: nat :: from <= k < i - 1 ==> !At(text, pat, k)
    requires forall k: nat :: from <= k < i - 1 + |decl| ==> !At(text[..i] + decl + text[i..], pat, k)
    ensures FindFrom(text[..i] + decl + text[i..], pat, from) == Shift(FindFrom(text, pat, from), |decl|)
  {
    hide *;
    var with := text[..i] + decl + text[i..];
    forall k: nat | i - 1 <= k ensures At(with, pat, k + |decl|) <==> At(text, pat, k) {
      ShiftedBehind(text, decl, i, pat, k);
    }
    ShiftedSearch(text, with, |decl|, i - 1, pat, from);
  }

  lemma ShiftedSearch(text: string, with: string, n: nat, start: nat, pat: string, from: nat)
    requires from <= start
    requires forall k: nat :: from <= k < start ==> !At(text, pat, k)
    requires forall k: nat :: from <= k < start + n ==> !At(with, pat, k)
    requires forall k: nat :: start <= k ==> (At(with, pat, k + n) <==> At(text, pat, k))
    ensures FindFrom(with, pat, from) == Shift(FindFrom(text, pat, from), n)
  {
    hide At, FindFrom;
    match FindFrom(text, pat, from)
    case Some(p) =>
      forall j: nat | from <= j < p + n ensures !At(with, pat, j) {
        if j >= start + n {
          var k: nat := j - n;
          assert At(with, pat, k + n) <==> At(text, pat, k);
        }
      }
      assert At(with, pat, p + n);
      FindFromIs(with, pat, from, p + n);
    case None =>
      forall j: nat | from <= j ensures !At(with, pat, j) {
        if j >= start + n {
          var k: nat := j - n;
          assert At(with, pat, k + n) <==> At(text, pat, k);
        }
      }
      FindFromNone(with, pat, from);
  }

  /** The patterns searched for: a rule at the start of a line, and the end of the table. */
  predicate IsRulePattern(pat: string) {
    pat == "\n-A " || pat == "\n-I " || pat == "\n-F "
  }

  /** No line of the text but perhaps its first starts with a dash. */
  predicate NoDashLine(s: string) {
    forall k :: 0 <= k < |s| - 1 && s[k] == '\n' ==> s[k + 1] != '-'
  }

  lemma NoDashSum(x: string, y: string)
    requires NoDashLine(x) && NoDashLine(y) && (y != "" ==> y[0] != '-')
    ensures NoDashLine(x + y)
  {
    var s := x + y;
    forall k | 0 <= k < |s| - 1 && s[k] == '\n' ensures s[k + 1] != '-' {
      if k + 1 > |x| {
        assert s[k] == y[k - |x|] && s[k + 1] == y[k + 1 - |x|];
      } else if k + 1 == |x| {
        assert s[k + 1] == y[0];
      }
    }
  }

  lemma FilterPiece()
    ensures NoDashLine(FILTER) && 'O' !in FILTER
    ensures |FILTER| == 8 && FILTER[7] == '\n' && forall k :: 0 <= k < 7 ==> FILTER[k] != '\n'
  {
  }

  lemma ChainBeginPiece()
    ensures NoDashLine(CHAIN_BEGIN) && 'O' !in CHAIN_BEGIN
  {
  }

  lemma ChainLinePiece()
    ensures NoDashLine(CHAIN_LINE) && 'O' !in CHAIN_LINE
  {
  }

  lemma ChainEndPiece()
    ensures NoDashLine(CHAIN_END) && 'O' !in CHAIN_END && CHAIN_END[|CHAIN_END| - 1] == '\n'
  {
  }

  lemma DeclPieces()
    ensures NoDashLine(FILTER) && NoDashLine(CHAIN_BEGIN) && NoDashLine(CHAIN_LINE) && NoDashLine(CHAIN_END)
    ensures 'O' !in FILTER && 'O' !in CHAIN_BEGIN && 'O' !in CHAIN_LINE && 'O' !in CHAIN_END
    ensures CHAIN_END[|CHAIN_END| - 1] == '\n'
    ensures |FILTER| == 8 && FILTER[7] == '\n' && forall k :: 0 <= k < 7 ==> FILTER[k] != '\n'
  {
    hide *;
    FilterPiece();
    ChainBeginPiece();
    ChainLinePiece();
    ChainEndPiece();
  }

  lemma DeclFacts()
    ensures NoDashLine(FILTER + DECL) && 'O' !in FILTER + DECL && DECL != "" && DECL[|DECL| - 1] == '\n'
  {
    DeclPieces();
    hide NoDashLine;
    NoDashSum(CHAIN_LINE, CHAIN_END);
    NoDashSum(CHAIN_BEGIN, CHAIN_LINE + CHAIN_END);
    NoDashSum(FILTER, DECL);
  }

  /** The declaration is put behind the line that opens the table. */
  predicate Opened(text: string, i: nat) {
    |FILTER| <= i <= |text| && text[i - |FILTER|..i] == FILTER
  }

  lemma LineChars(text: string, lo: nat, line: string)
    requires lo + |line| <= |text| && text[lo..lo + |line|] == line
    ensures forall k :: lo <= k < lo + |line| ==> text[k] == line[k - lo]
  {
    assert forall k :: lo <= k < lo + |line| ==> text[k] == text[lo..lo + |line|][k - lo];
  }

  lemma InsertedAt(text: string, lo: nat, line: string, decl: string)
    requires lo + |line| <= |text| && text[lo..lo + |line|] == line
    ensures var i := lo + |line|;
            |text[..i] + decl + text[i..]| >= i + |decl| && (text[..i] + decl + text[i..])[lo..i + |decl|] == line + decl
  {
    var i := lo + |line|;
    assert text[..i] == text[..lo] + line;
  }

  lemma DeclaredIs(text: string, i: nat)
    requires i <= |text|
    ensures Declared(text, i) == text[..i] + DECL + text[i..]
  {
  }

  lemma FilterIs()
    ensures |FILTER| == 8 && FILTER[7] == '\n'
  {
  }

  /** What stands at the insertion, character by character. */
  lemma FilterChars(text: string, i: nat)
    requires Opened(text, i)
    ensures forall k :: i - 8 <= k < i ==> text[k] == FILTER[k - (i - 8)]
    ensures text[i - 1] == '\n'
  {
    FilterIs();
    LineChars(text, i - 8, FILTER);
  }

  lemma DeclaredHas(text: string, i: nat)
    requires Opened(text, i)
    ensures i >= 8 && At(Declared(text, i), FILTER + DECL, i - 8)
  {
    FilterIs();
    DeclaredIs(text, i);
    hide DECL, Declared, FILTER;
    InsertedAt(text, i - 8, FILTER, DECL);
  }

  lemma NoRuleWithin(s: string, line: string, lo: nat, pat: string, k: nat)
    requires At(s, line, lo) && NoDashLine(line) && IsRulePattern(pat) && lo <= k < lo + |line| - 1
    ensures !At(s, pat, k)
  {
    AtChars(s, line, lo, k - lo);
    AtChars(s, line, lo, k - lo + 1);
    if At(s, pat, k) {
      AtChars(s, pat, k, 0);
      AtChars(s, pat, k, 1);
      assert false;
    }
  }

  lemma RulesSkipDecl(text: string, i: nat, pat: string)
    requires Opened(text, i) && IsRulePattern(pat)
    ensures forall k: nat :: i - 8 <= k < i - 1 ==> !At(text, pat, k)
    ensures forall k: nat :: i - 8 <= k < i - 1 + |DECL| ==> !At(Declared(text, i), pat, k)
  {
    DeclFacts();
    DeclPieces();
    DeclaredHas(text, i);
    assert At(text, FILTER, i - 8);
    hide DECL, FILTER, Declared, Opened, At, NoDashLine, IsRulePattern;
    forall k: nat | i - 8 <= k < i - 1 ensures !At(text, pat, k) {
      NoRuleWithin(text, FILTER, i - 8, pat, k);
    }
    forall k: nat | i - 8 <= k < i - 1 + |DECL| ensures !At(Declared(text, i), pat, k) {
      NoRuleWithin(Declared(text, i), FILTER + DECL, i - 8, pat, k);
    }
  }

  lemma OtherFirst(s: string, pat: string, k: nat)
    requires pat != "" && k < |s| && s[k] != pat[0]
    ensures !At(s, pat, k)
  {
    if k + |pat| <= |s| {
      assert s[k..k + |pat|][0] == s[k];
    }
  }

  lemma NotAnywhere(c: char, s: string)
    requires c !in s
    ensures forall k :: 0 <= k < |s| ==> s[k] != c
  {
  }

  lemma NoCommitWithin(s: string, line: string, lo: nat, k: nat)
    requires At(s, line, lo) && 'O' !in line && lo <= k < lo + |line| - 1
    ensures !At(s, COMMIT, k)
  {
    AtChars(s, line, lo, k - lo + 1);
    assert COMMIT[1] == 'O';
    if At(s, COMMIT, k) {
      AtChars(s, COMMIT, k, 1);
      assert false;
    }
  }

  lemma CommitSkipsDecl(text: string, i: nat)
    requires Opened(text, i)
    ensures forall k: nat :: i - 8 <= k < i ==> !At(text, COMMIT, k)
    ensures forall k: nat :: i - 8 <= k < i - 1 + |DECL| ==> !At(Declared(text, i), COMMIT, k)
  {
    DeclFacts();
    DeclPieces();
    FilterChars(text, i);
    DeclaredHas(text, i);
    assert COMMIT[0] == 'C';
    NotAnywhere('C', FILTER);
    hide DECL, FILTER, Declared, Opened, At;
    forall k: nat | i - 8 <= k < i ensures !At(text, COMMIT, k) {
      OtherFirst(text, COMMIT, k);
    }
    forall k: nat | i - 8 <= k < i - 1 + |DECL| ensures !At(Declared(text, i), COMMIT, k) {
      NoCommitWithin(Declared(text, i), FILTER + DECL, i - 8, k);
    }
  }

  lemma CommitShifted(text: string, i: nat)
    requires Opened(text, i)
    ensures FindFrom(Declared(text, i), COMMIT, i - 8) == Shift(FindFrom(text, COMMIT, i - 8), |DECL|)
    ensures FindFrom(text, COMMIT, i - 8).Some? ==> FindFrom(text, COMMIT, i - 8).value >= i
  {
    hide *;
    CommitSkipsDecl(text, i);
    DeclEnds();
    OpenedEnds(text, i);
    DeclaredIs(text, i);
    FindShifted(text, DECL, i, COMMIT, i - 8);
  }

  lemma DeclEnds()
    ensures DECL != "" && DECL[|DECL| - 1] == '\n'
  {
    DeclFacts();
  }

  lemma OpenedEnds(text: string, i: nat)
    requires Opened(text, i)
    ensures 8 <= i <= |text| && text[i - 1] == '\n'
  {
    FilterChars(text, i);
  }

  lemma RuleShifted(text: string, i: nat, pat: string)
    requires Opened(text, i) && IsRulePattern(pat)
    ensures FindFrom(Declared(text, i), pat, i - 8) == Shift(FindFrom(text, pat, i - 8), |DECL|)
    ensures FindFrom(text, pat, i - 8).Some? ==> FindFrom(text, pat, i - 8).value >= i - 1
  {
    hide *;
    RulesSkipDecl(text, i, pat);
    DeclEnds();
    OpenedEnds(text, i);
    DeclaredIs(text, i);
    FindShifted(text, DECL, i, pat, i - 8);
  }

  function PlaceOf(a: Option<nat>, b: Option<nat>, c: Option<nat>, end: nat): nat {
    match Least(Least(a, b), c)
    case Some(p) => p + 1
    case None => end
  }

  lemma FirstRuleIs(s: string, begin: nat, end: nat)
    requires begin <= end <= |s|
    ensures FirstRule(s, begin, end)
         == PlaceOf(FindFrom(s[..end], "\n-A ", begin), FindFrom(s[..end], "\n-I ", begin), FindFrom(s[..end], "\n-F ", begin), end)
  {
    hide FindFrom;
  }

  lemma PlaceShifted(a: Option<nat>, b: Option<nat>, c: Option<nat>, end: nat, n: nat, i: nat)
    requires i <= end && (a.Some? ==> a.value >= i - 1) && (b.Some? ==> b.value >= i - 1) && (c.Some? ==> c.value >= i - 1)
    ensures PlaceOf(Shift(a, n), Shift(b, n), Shift(c, n), end + n) == PlaceOf(a, b, c, end) + n
    ensures i <= PlaceOf(a, b, c, end)
  {
  }

  lemma PartOpened(text: string, i: nat, end: nat)
    requires Opened(text, i) && i <= end <= |text|
    ensures Opened(text[..end], i)
  {
    assert text[..end][i - 8..i] == text[i - 8..i];
  }

  lemma PatternsAre()
    ensures IsRulePattern("\n-A ") && IsRulePattern("\n-I ") && IsRulePattern("\n-F ")
  {
  }

  lemma FirstRuleShifted(text: string, i: nat, end: nat)
    requires Opened(text, i) && i <= end <= |text|
    ensures |Declared(text, i)| == |text| + |DECL|
    ensures FirstRule(Declared(text, i), i - 8, end + |DECL|) == FirstRule(text, i - 8, end) + |DECL|
    ensures i <= FirstRule(text, i - 8, end)
  {
    hide *;
    var part := text[..end];
    OpenedEnds(text, i);
    PatternsAre();
    PartOpened(text, i, end);
    DeclaredPart(text, i, end);
    RuleShifted(part, i, "\n-A ");
    RuleShifted(part, i, "\n-I ");
    RuleShifted(part, i, "\n-F ");
    FirstRuleIs(text, i - 8, end);
    FirstRuleIs(Declared(text, i), i - 8, end + |DECL|);
    PlaceShifted(FindFrom(part, "\n-A ", i - 8), FindFrom(part, "\n-I ", i - 8), FindFrom(part, "\n-F ", i - 8), end, |DECL|, i);
  }

  lemma DeclaredPart(text: string, i: nat, end: nat)
    requires i <= end <= |text|
    ensures Declared(text, i)[..end + |DECL|] == Declared(text[..end], i)
    ensures |Declared(text, i)| == |text| + |DECL|
  {
    hide DECL;
  }

  // ---------- What installing does ----------

  /** The position behind the table's opening line. */
  function DeclPlace(text: string): nat
    requires Contains(text, FILTER)
  {
    Find(text, FILTER).value + |FILTER|
  }

  function TableEnd(text: string): Option<nat>
    requires Contains(text, FILTER)
  {
    FindFrom(text, COMMIT, DeclPlace(text) - |FILTER|)
  }

  function HookPlace(text: string): nat
    requires Contains(text, FILTER) && TableEnd(text).Some?
  {
    FirstRule(text, DeclPlace(text) - |FILTER|, TableEnd(text).value)
  }

  /** The texts that are accepted: one filter table with its end, the stock chain, and no chain of our name. */
  predicate Accepted(text: string) {
    && Count(text, FILTER) == 1
    && Contains(text, FILTER)
    && Contains(text, ":ufw-before-input ")
    && !Contains(text, "waycast-input")
    && TableEnd(text).Some?
  }

  /** The table is still found where it was. */
  lemma FilterStays(text: string)
    requires Contains(text, FILTER)
    ensures Opened(text, DeclPlace(text)) && Find(Declared(text, DeclPlace(text)), FILTER) == Find(text, FILTER)
  {
    var f := Find(text, FILTER).value;
    var i := DeclPlace(text);
    var rest := DECL + text[i..];
    assert Declared(text, i) == text[..i] + rest;
    assert text[..i][f..f + |FILTER|] == text[f..i] == FILTER;
    assert text == text[..i] + text[i..];
    forall k: nat | k <= f ensures At(text[..i] + rest, FILTER, k) <==> At(text, FILTER, k) {
      AtPrefix(text[..i], rest, FILTER, k);
      AtPrefix(text[..i], text[i..], FILTER, k);
    }
    hide At, DECL;
    FindIs(text[..i] + rest, FILTER, f);
  }

  lemma CountPositive(text: string)
    requires Count(text, FILTER) == 1
    ensures Contains(text, FILTER)
  {
  }

  /** The checks of a text, and the search in it once the declaration is in. */
  lemma InstallIs(text: string)
    ensures Install(text).Success? ==> Count(text, FILTER) == 1 && Contains(text, ":ufw-before-input ") && !Contains(text, "waycast-input")
    ensures Count(text, FILTER) == 1 && Contains(text, ":ufw-before-input ") && !Contains(text, "waycast-input") && Contains(text, FILTER) ==>
              var with := Declared(text, DeclPlace(text));
              match Find(with, FILTER)
              case None => Install(text) == Failure(NotStock)
              case Some(begin) =>
                match FindFrom(with, COMMIT, begin)
                case None => Install(text) == Failure(NoCommit)
                case Some(end) =>
                  Install(text) == Success(with[..FirstRule(with, begin, end)] + HOOK + with[FirstRule(with, begin, end)..])
  {
    hide Count, FindFrom, FirstRule, DECL, HOOK;
  }

  /**
   Main result: exactly the accepted texts are changed, and the result is the text with the declaration and the
   jump put in at two places: every original character is kept, in order.
   */
  lemma InstallKeepsText(text: string)
    ensures Install(text).Success? <==> Accepted(text)
    ensures Accepted(text) ==>
              && DeclPlace(text) <= HookPlace(text) <= |text|
              && Install(text) == Success(text[..DeclPlace(text)]
                                          + (DECL + (text[DeclPlace(text)..HookPlace(text)] + (HOOK + text[HookPlace(text)..]))))
  {
    hide Count, Contains, FindFrom, DECL, HOOK, FirstRule, Declared, Opened, Install, COMMIT, At;
    InstallIs(text);
    if Count(text, FILTER) == 1 {
      CountPositive(text);
      var i := DeclPlace(text);
      FilterStays(text);
      CommitShifted(text, i);
      if TableEnd(text).Some? {
        TableEndBound(text);
        FirstRuleShifted(text, i, TableEnd(text).value);
        FirstRuleBounded(text, i - 8, TableEnd(text).value);
        DeclaredIs(text, i);
        InsertTwice(text, DECL, i, HOOK, HookPlace(text));
      }
    }
  }

  lemma TableEndBound(text: string)
    requires Contains(text, FILTER) && TableEnd(text).Some?
    ensures DeclPlace(text) <= TableEnd(text).value <= |text|
  {
    assert At(text, COMMIT, TableEnd(text).value);
    hide Find, FindFrom, Declared, DECL;
    FilterStays(text);
    CommitShifted(text, DeclPlace(text));
  }

  /** The place chosen by the search for a rule. */
  lemma FirstRuleIsFirst(s: string, begin: nat, end: nat)
    requires begin <= end <= |s|
    ensures var j := FirstRule(s, begin, end);
            && (j == end || (j > begin && RuleAt(s, end, j - 1)))
            && forall k: nat :: begin <= k && RuleAt(s, end, k) ==> j <= k + 1
  {
    hide At, RuleAt, FirstRule, Least;
    FirstRuleIs(s, begin, end);
    var part := s[..end];
    LeastOf(FindFrom(part, "\n-A ", begin), FindFrom(part, "\n-I ", begin), FindFrom(part, "\n-F ", begin), end);
    if FirstRule(s, begin, end) != end {
      RuleInPart(s, end, FirstRule(s, begin, end) - 1);
    }
    forall k: nat | begin <= k && RuleAt(s, end, k) ensures FirstRule(s, begin, end) <= k + 1 {
      RuleInPart(s, end, k);
      if At(part, "\n-A ", k) {
      } else if At(part, "\n-I ", k) {
      } else {
        assert At(part, "\n-F ", k);
      }
    }
  }

  lemma LeastOf(a: Option<nat>, b: Option<nat>, c: Option<nat>, end: nat)
    ensures var j := PlaceOf(a, b, c, end);
            && ((a.None? && b.None? && c.None? && j == end) || (j > 0 && (a == Some(j - 1) || b == Some(j - 1) || c == Some(j - 1))))
            && (a.Some? ==> j <= a.value + 1) && (b.Some? ==> j <= b.value + 1) && (c.Some? ==> j <= c.value + 1)
  {
  }

  lemma FirstRuleBounded(s: string, begin: nat, end: nat)
    requires begin <= end <= |s|
    ensures FirstRule(s, begin, end) <= end
  {
  }

  lemma InsertTwice(text: string, decl: string, i: nat, hook: string, j: nat)
    requires i <= j <= |text|
    ensures var with := text[..i] + decl + text[i..];
            with[..j + |decl|] + hook + with[j + |decl|..] == text[..i] + (decl + (text[i..j] + (hook + text[j..])))
  {
    var with := text[..i] + decl + text[i..];
    assert text[i..] == text[i..j] + text[j..];
    assert with[..j + |decl|] == text[..i] + decl + text[i..j];
    assert with[j + |decl|..] == text[j..];
  }

  predicate RuleAt(text: string, end: nat, k: nat) {
    k + 4 <= end <= |text| && (At(text, "\n-A ", k) || At(text, "\n-I ", k) || At(text, "\n-F ", k))
  }

  lemma RuleInPart(text: string, end: nat, k: nat)
    requires end <= |text|
    ensures RuleAt(text, end, k) <==> At(text[..end], "\n-A ", k) || At(text[..end], "\n-I ", k) || At(text[..end], "\n-F ", k)
  {
    assert text == text[..end] + text[end..];
    if k + 4 <= end {
      AtPrefix(text[..end], text[end..], "\n-A ", k);
      AtPrefix(text[..end], text[end..], "\n-I ", k);
      AtPrefix(text[..end], text[end..], "\n-F ", k);
    }
  }

  /** A line of the table, or behind it, that adds, inserts or flushes a rule starts behind the line feed at `k`. */
  predicate RulePatternAt(text: string, k: nat) {
    At(text, "\n-A ", k) || At(text, "\n-I ", k) || At(text, "\n-F ", k)
  }

  lemma PatternChars(text: string, k: nat)
    requires RulePatternAt(text, k)
    ensures k + 4 <= |text| && text[k + 1] == '-' && text[k + 2] in "AIF" && text[k + 3] == ' '
  {
    if At(text, "\n-A ", k) {
      FourChars(text, "\n-A ", k);
    } else if At(text, "\n-I ", k) {
      FourChars(text, "\n-I ", k);
    } else {
      FourChars(text, "\n-F ", k);
    }
  }

  lemma FourChars(text: string, pat: string, k: nat)
    requires At(text, pat, k) && |pat| == 4
    ensures k + 4 <= |text| && text[k + 1] == pat[1] && text[k + 2] == pat[2] && text[k + 3] == pat[3]
  {
    AtChars(text, pat, k, 1);
    AtChars(text, pat, k, 2);
    AtChars(text, pat, k, 3);
  }

  /**
   The jump stands behind the chain's declaration, not behind the first `COMMIT`, and before every line from the table's
   start on that adds, inserts or flushes a rule: directly before the first such line, or at that `COMMIT`.
   */
  lemma JumpComesFirst(text: string)
    requires Accepted(text)
    ensures var begin, end, j := DeclPlace(text) - |FILTER|, TableEnd(text).value, HookPlace(text);
            && begin < DeclPlace(text) <= j <= end
            && (forall k: nat :: begin <= k && RulePatternAt(text, k) ==> j <= k + 1)
            && (j == end || RuleAt(text, end, j - 1))
  {
    hide Count, Contains, Find, FindFrom, FirstRule, RulePatternAt, RuleAt, Opened, Declared, DECL, At, TableEnd;
    TableEndBound(text);
    HookPlaceIs(text);
    var begin, end := DeclPlace(text) - |FILTER|, TableEnd(text).value;
    FilterStays(text);
    OpenedEnds(text, DeclPlace(text));
    FirstRuleShifted(text, DeclPlace(text), end);
    FirstRuleIsFirst(text, begin, end);
    forall k: nat | begin <= k && RulePatternAt(text, k) ensures HookPlace(text) <= k + 1 {
      RuleBeforeEnd(text, k);
    }
  }

  /** A rule pattern that starts before the first `COMMIT` ends before it. */
  lemma RuleBeforeEnd(text: string, k: nat)
    requires Contains(text, FILTER) && TableEnd(text).Some? && RulePatternAt(text, k)
    ensures k + 1 >= TableEnd(text).value || RuleAt(text, TableEnd(text).value, k)
  {
    var end := TableEnd(text).value;
    PatternChars(text, k);
    assert At(text, COMMIT, end);
    AtChars(text, COMMIT, end, 0);
    assert COMMIT[0] == 'C';
  }

  lemma HookPlaceIs(text: string)
    requires Contains(text, FILTER) && TableEnd(text).Some? && TableEnd(text).value <= |text|
    ensures HookPlace(text) == FirstRule(text, DeclPlace(text) - |FILTER|, TableEnd(text).value)
  {
  }

  // ---------- Taking it out again ----------

  /** A text without any of the markers. */
  predicate MarkerFree(text: string) {
    Free(text, CHAIN_BEGIN, CHAIN_END) && Free(text, HOOK_BEGIN, HOOK_END)
  }

  lemma PartFree(text: string, lo: nat, hi: nat, m: string)
    requires lo <= hi <= |text| && !Contains(text, m)
    ensures !Contains(text[lo..hi], m)
  {
    if Contains(text[lo..hi], m) {
      var k := Find(text[lo..hi], m).value;
      assert text == text[..lo] + (text[lo..hi] + text[hi..]);
      AtPrefix(text[lo..hi], text[hi..], m, k);
      AtSuffix(text[..lo], text[lo..hi] + text[hi..], m, lo + k);
      assert false;
    }
  }

  lemma HookHasNo(m: string)
    requires m == CHAIN_BEGIN || m == CHAIN_END
    ensures IsMarker(m) && !Contains(HOOK_BEGIN, m) && !Contains(HOOK_LINES, m) && !Contains(HOOK_END, m)
  {
    ChainMarkers();
    HookMarkers();
    MarkersDiffer();
    hide IsMarker, Contains;
    OtherMarker(m, HOOK_BEGIN);
    OtherMarker(m, HOOK_END);
    NoMarker(HOOK_LINES, m);
  }

  lemma MarkersAreApart(x: string, y: string, m: string)
    requires IsMarker(m)
    ensures Apart(m, y) && Apart(x, m + y)
  {
  }

  /** A jump put into a text free of a chain marker leaves it free of that marker. */
  lemma StillFree(x: string, y: string, m: string)
    requires (m == CHAIN_BEGIN || m == CHAIN_END) && !Contains(x, m) && !Contains(y, m)
    ensures !Contains(x + (HOOK_BEGIN + (HOOK_LINES + (HOOK_END + y))), m)
  {
    HookHasNo(m);
    HookMarkers();
    hide *;
    MarkersAreApart(HOOK_LINES, y, HOOK_END);
    MarkersAreApart(x, HOOK_LINES + (HOOK_END + y), HOOK_BEGIN);
    ContainsApart(HOOK_END, y, m);
    ContainsApart(HOOK_LINES, HOOK_END + y, m);
    ContainsApart(HOOK_BEGIN, HOOK_LINES + (HOOK_END + y), m);
    ContainsApart(x, HOOK_BEGIN + (HOOK_LINES + (HOOK_END + y)), m);
  }

  lemma Flatten(text: string, i: nat, j: nat)
    requires i <= j <= |text|
    ensures text[..i] + (DECL + (text[i..j] + (HOOK + text[j..])))
         == text[..i] + (CHAIN_BEGIN + (CHAIN_LINE + (CHAIN_END + (text[i..j] + (HOOK_BEGIN + (HOOK_LINES + (HOOK_END + text[j..])))))))
  {
    var x, y := text[i..j], text[j..];
    Associate(HOOK_BEGIN, HOOK_LINES, HOOK_END, y);
    Associate(CHAIN_BEGIN, CHAIN_LINE, CHAIN_END, x + (HOOK + y));
  }

  lemma Associate(a: string, b: string, c: string, d: string)
    ensures (a + (b + c)) + d == a + (b + (c + d))
  {
  }

  /** Both blocks come out of an installed text. */
  lemma RemoveInstalled(text: string, i: nat, j: nat)
    requires MarkerFree(text) && i <= j <= |text|
    ensures Remove(text[..i] + (DECL + (text[i..j] + (HOOK + text[j..])))) == Success(text)
  {
    var x, y := text[i..j], text[j..];
    var jump := HOOK_BEGIN + (HOOK_LINES + (HOOK_END + y));
    FreeParts(text, i, j);
    Flatten(text, i, j);
    Halves(text, i, j, jump);
    hide Contains, RemoveBlock, DECL, HOOK, IsMarker;
    RemoveDecl(text[..i], x, y);
    RemoveJump(text[..j], y);
  }

  lemma Halves(text: string, i: nat, j: nat, jump: string)
    requires i <= j <= |text|
    ensures text[..i] + (text[i..j] + jump) == text[..j] + jump && text[..j] + text[j..] == text
  {
    assert text[..i] + text[i..j] == text[..j];
  }

  lemma RemoveDecl(a: string, x: string, y: string)
    requires MarkerFree(a) && MarkerFree(x) && MarkerFree(y)
    ensures var rest := x + (HOOK_BEGIN + (HOOK_LINES + (HOOK_END + y)));
            RemoveBlock(a + (CHAIN_BEGIN + (CHAIN_LINE + (CHAIN_END + rest))), CHAIN_BEGIN, CHAIN_END) == Success(a + rest)
  {
    ChainMarkers();
    hide Contains, RemoveBlock, IsMarker;
    StillFree(x, y, CHAIN_BEGIN);
    StillFree(x, y, CHAIN_END);
    RemoveUndoes(a, CHAIN_BEGIN, CHAIN_LINE, CHAIN_END, x + (HOOK_BEGIN + (HOOK_LINES + (HOOK_END + y))));
  }

  lemma RemoveJump(a: string, y: string)
    requires MarkerFree(a) && MarkerFree(y)
    ensures RemoveBlock(a + (HOOK_BEGIN + (HOOK_LINES + (HOOK_END + y))), HOOK_BEGIN, HOOK_END) == Success(a + y)
  {
    HookMarkers();
    hide Contains, RemoveBlock, IsMarker;
    RemoveUndoes(a, HOOK_BEGIN, HOOK_LINES, HOOK_END, y);
  }

  lemma FreeParts(text: string, i: nat, j: nat)
    requires MarkerFree(text) && i <= j <= |text|
    ensures MarkerFree(text[..i]) && MarkerFree(text[i..j]) && MarkerFree(text[j..]) && MarkerFree(text[..j])
  {
    PartMarkerFree(text, 0, i);
    PartMarkerFree(text, i, j);
    PartMarkerFree(text, j, |text|);
    PartMarkerFree(text, 0, j);
    assert text[0..i] == text[..i] && text[0..j] == text[..j] && text[j..|text|] == text[j..];
    hide MarkerFree;
  }

  lemma PartMarkerFree(text: string, lo: nat, hi: nat)
    requires MarkerFree(text) && lo <= hi <= |text|
    ensures MarkerFree(text[lo..hi])
  {
    hide Contains;
    PartFree(text, lo, hi, CHAIN_BEGIN);
    PartFree(text, lo, hi, CHAIN_END);
    PartFree(text, lo, hi, HOOK_BEGIN);
    PartFree(text, lo, hi, HOOK_END);
  }

  lemma NothingInstalled(text: string)
    requires MarkerFree(text)
    ensures Remove(text) == Success(text)
  {
    hide Contains, RemoveBlock;
    ChainMarkers();
    NothingToRemove(text, CHAIN_BEGIN, CHAIN_END);
    NothingToRemove(text, HOOK_BEGIN, HOOK_END);
  }

  /**
   Main result: on a text without markers that is accepted, removing undoes installing exactly, and installing
   again changes nothing.
   */
  lemma HookIsReversible(text: string)
    requires MarkerFree(text) && Hook(text, false).Success?
    ensures Hook(Hook(text, false).value, true) == Success(text)
    ensures Hook(Hook(text, false).value, false) == Hook(text, false)
  {
    hide MarkerFree, Install, Remove, DECL, HOOK, Count, Contains, TableEnd;
    NothingInstalled(text);
    InstallKeepsText(text);
    RemoveInstalled(text, DeclPlace(text), HookPlace(text));
  }
}
