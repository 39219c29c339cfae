/**
 The search for the configured picker, told without its state: which line names it, and when two paths are the same.
 */
module PickerScans {
  import opened Wrappers
  import opened Text
  import opened Pickers

  // ---------- Sections ----------

  /** A line that opens the section, whatever else it says. */
  predicate OpensSection(line: string) {
    "screencopy" <= line && '{' in line
  }

  /** Opening braces minus closing ones from line `j` up to, not including, line `i`. */
  function Depth(lines: seq<string>, j: nat, i: nat): int
    requires j <= i <= |lines|
  {
    if j == i then 0 else Depth(lines, j, i - 1) + Braces(Content(lines[i - 1]))
  }

  /** The section opened in line `j` is still open before line `k`. */
  predicate OpenAt(lines: seq<string>, j: nat, k: nat) {
    j < k <= |lines| && OpensSection(Content(lines[j])) && forall i: nat :: j < i <= k ==> Depth(lines, j, i) > 0
  }

  ghost predicate InSection(lines: seq<string>, k: nat) {
    k < |lines| && (OpensSection(Content(lines[k])) || exists j: nat :: OpenAt(lines, j, k))
  }

  /** The line is in a section and names a foreign picker. */
  ghost predicate NamesPicker(lines: seq<string>, own: string, k: nat, picker: string) {
    InSection(lines, k) && PickerValue(Content(lines[k]), own) == Some(picker)
  }

  ghost predicate FirstNamed(lines: seq<string>, own: string, k: nat, picker: string) {
    NamesPicker(lines, own, k, picker) && forall i: nat, other: string :: i < k ==> !NamesPicker(lines, own, i, other)
  }

  ghost predicate NoneNamed(lines: seq<string>, own: string) {
    forall k: nat, picker: string :: !NamesPicker(lines, own, k, picker)
  }

  /** The state before line `n`: inside exactly in an open section, whose first line the depth is counted from. */
  ghost predicate Follows(lines: seq<string>, n: nat, state: State) {
    && n <= |lines|
    && if state.inside then
         exists j: nat :: OpenAt(lines, j, n) && state.depth == Depth(lines, j, n) && forall i: nat :: i < j ==> !OpenAt(lines, i, n)
       else forall j: nat :: !OpenAt(lines, j, n)
  }

  lemma {:induction false} DepthSplits(lines: seq<string>, j: nat, m: nat, i: nat)
    requires j <= m <= i <= |lines|
    ensures Depth(lines, j, i) == Depth(lines, j, m) + Depth(lines, m, i)
    decreases i
  {
    if m < i {
      DepthSplits(lines, j, m, i - 1);
    }
  }

  lemma EarlierOpen(lines: seq<string>, j: nat, n: nat)
    requires OpenAt(lines, j, n + 1) && j < n
    ensures OpenAt(lines, j, n)
  {
  }

  lemma LongerOpen(lines: seq<string>, j: nat, n: nat)
    requires OpenAt(lines, j, n) && n < |lines| && Depth(lines, j, n + 1) > 0
    ensures OpenAt(lines, j, n + 1)
  {
    forall i: nat | j < i <= n + 1 ensures Depth(lines, j, i) > 0 {
      if i <= n {
        assert OpenAt(lines, j, n);
      }
    }
  }

  lemma JustOpened(lines: seq<string>, n: nat)
    requires n < |lines|
    ensures OpenAt(lines, n, n + 1) <==> OpensSection(Content(lines[n])) && Braces(Content(lines[n])) > 0
    ensures Depth(lines, n, n + 1) == Braces(Content(lines[n]))
  {
    hide Content, Braces;
    assert Depth(lines, n, n) == 0;
    var next := n + 1;
    assert Depth(lines, n, next) == Braces(Content(lines[n]));
    if Braces(Content(lines[n])) > 0 {
      forall i: nat | n < i <= next ensures Depth(lines, n, i) > 0 {
        assert i == next;
      }
    }
  }

  lemma BlankLine()
    ensures Braces("") == 0 && !OpensSection("")
  {
  }

  /** In an open section the next line keeps it open exactly while the depth stays positive. */
  lemma InsideStep(lines: seq<string>, n: nat, state: State)
    requires Follows(lines, n, state) && n < |lines| && state.inside
    ensures var depth := state.depth + Braces(Content(lines[n])); Follows(lines, n + 1, State(depth > 0, depth))
  {
    hide Content, Braces, OpensSection;
    var j: nat :| OpenAt(lines, j, n) && state.depth == Depth(lines, j, n) && forall i: nat :: i < j ==> !OpenAt(lines, i, n);
    var depth := state.depth + Braces(Content(lines[n]));
    var next := n + 1;
    assert Depth(lines, j, next) == depth;
    forall i: nat | i < j ensures !OpenAt(lines, i, next) {
      if OpenAt(lines, i, next) {
        EarlierOpen(lines, i, n);
        assert false;
      }
    }
    if depth > 0 {
      LongerOpen(lines, j, n);
    } else {
      forall i: nat ensures !OpenAt(lines, i, next) {
        if OpenAt(lines, i, next) && i >= j {
          NotDeeper(lines, j, n, i);
        }
      }
    }
  }

  lemma NotDeeper(lines: seq<string>, j: nat, n: nat, i: nat)
    requires OpenAt(lines, j, n) && n < |lines| && OpenAt(lines, i, n + 1) && i >= j
    ensures Depth(lines, j, n + 1) > 0
  {
    hide Content, Braces, OpensSection;
    DepthSplits(lines, j, i, n + 1);
    assert Depth(lines, i, n + 1) > 0;
    assert i > j ==> Depth(lines, j, i) > 0;
    assert Depth(lines, j, j) == 0;
  }

  lemma OutsideStep(lines: seq<string>, n: nat, state: State)
    requires Follows(lines, n, state) && n < |lines| && !state.inside
    ensures var braces := Braces(Content(lines[n]));
            if OpensSection(Content(lines[n])) then Follows(lines, n + 1, State(braces > 0, braces))
            else Follows(lines, n + 1, state)
  {
    hide Content, Braces, OpensSection;
    JustOpened(lines, n);
    var next := n + 1;
    forall i: nat | i < n ensures !OpenAt(lines, i, next) {
      if OpenAt(lines, i, next) {
        EarlierOpen(lines, i, n);
        assert false;
      }
    }
    forall i: nat ensures OpenAt(lines, i, next) ==> i == n {
    }
  }

  lemma LineInSection(lines: seq<string>, n: nat, state: State)
    requires Follows(lines, n, state) && n < |lines|
    ensures InSection(lines, n) <==> state.inside || OpensSection(Content(lines[n]))
  {
    hide Content, OpensSection, OpenAt;
  }

  lemma OpensIs(line: string)
    ensures Opens(line) <==> OpensSection(line)
  {
  }

  /** One line of the scan. */
  lemma ScanFollows(lines: seq<string>, n: nat, state: State, own: string)
    requires Follows(lines, n, state) && n < |lines|
    ensures ScanLine(state, lines[n], own).1 == if InSection(lines, n) then PickerValue(Content(lines[n]), own) else None
    ensures ScanLine(state, lines[n], own).1.None? ==> Follows(lines, n + 1, ScanLine(state, lines[n], own).0)
  {
    LineInSection(lines, n, state);
    OpensIs(Content(lines[n]));
    BlankLine();
    BlankNamesNothing(own);
    if state.inside {
      InsideStep(lines, n, state);
    } else {
      OutsideStep(lines, n, state);
    }
    InsideIsDeep(lines, n, state);
    hide Content, Braces, Opens, OpensSection, PickerValue, Follows, InSection;
  }

  lemma InsideIsDeep(lines: seq<string>, n: nat, state: State)
    requires Follows(lines, n, state)
    ensures state.inside ==> state.depth > 0
  {
    hide Content, OpensSection;
  }

  lemma BlankNamesNothing(own: string)
    ensures PickerValue("", own) == None
  {
    assert KEYWORD != "";
  }

  lemma {:induction false} ScanFinds(lines: seq<string>, n: nat, state: State, own: string, picker: string)
    requires Follows(lines, n, state) && forall i: nat, other: string :: i < n ==> !NamesPicker(lines, own, i, other)
    ensures Scan(lines[n..], state, own).1 == Some(picker) <==> exists k: nat :: n <= k && FirstNamed(lines, own, k, picker)
    decreases |lines| - n
  {
    assert n <= |lines|;
    hide ScanLine, Content, PickerValue, Follows, InSection;
    if n == |lines| {
      assert lines[n..] == [];
      NoneBehind(lines, own);
    } else {
      ScanFollows(lines, n, state, own);
      assert lines[n..][0] == lines[n] && lines[n..][1..] == lines[n + 1..];
      var found := ScanLine(state, lines[n], own).1;
      if found.Some? {
        assert NamesPicker(lines, own, n, found.value);
        OnlyFirst(lines, own, n, found.value, picker);
      } else {
        forall i: nat, other: string | i < n + 1 ensures !NamesPicker(lines, own, i, other) {
        }
        ScanFinds(lines, n + 1, ScanLine(state, lines[n], own).0, own, picker);
        assert forall k: nat :: FirstNamed(lines, own, k, picker) ==> k != n;
      }
    }
  }

  lemma NoneBehind(lines: seq<string>, own: string)
    ensures forall k: nat, picker: string :: NamesPicker(lines, own, k, picker) ==> k < |lines|
  {
    hide Content, PickerValue;
  }

  lemma OnlyFirst(lines: seq<string>, own: string, n: nat, value: string, picker: string)
    requires NamesPicker(lines, own, n, value) && forall i: nat, other: string :: i < n ==> !NamesPicker(lines, own, i, other)
    ensures (exists k: nat :: n <= k && FirstNamed(lines, own, k, picker)) <==> value == picker
  {
    if value == picker {
      assert FirstNamed(lines, own, n, picker);
    }
    if exists k: nat :: n <= k && FirstNamed(lines, own, k, picker) {
      var k: nat :| n <= k && FirstNamed(lines, own, k, picker);
      assert k > n ==> !NamesPicker(lines, own, n, value);
      assert k == n;
      SameLine(lines, own, n, value, picker);
    }
  }

  lemma SameLine(lines: seq<string>, own: string, k: nat, a: string, b: string)
    requires NamesPicker(lines, own, k, a) && NamesPicker(lines, own, k, b)
    ensures a == b
  {
    hide Content, PickerValue, InSection;
  }

  /**
   Main result: the fallback is what the first line in a section names that names a foreign picker, a section reaching from
   a line that opens it to where its braces are balanced; and hyprland-share-picker when there is no such line or no file.
   */
  lemma OriginalIsFirstNamed(existing: Option<string>, own: string)
    ensures existing.None? ==> Original(existing, own) == "hyprland-share-picker"
    ensures existing.Some? ==>
              var lines := Lines(existing.value);
              && (forall k: nat, picker: string :: FirstNamed(lines, own, k, picker) ==> Original(existing, own) == picker)
              && (NoneNamed(lines, own) ==> Original(existing, own) == "hyprland-share-picker")
  {
    hide NamesPicker, Follows, Scan;
    if existing.Some? {
      var lines := Lines(existing.value);
      NothingOpen(lines, own);
      assert lines[0..] == lines;
      var found := Configured(existing.value, own);
      forall k: nat, picker: string | FirstNamed(lines, own, k, picker) ensures Original(existing, own) == picker {
        ScanFinds(lines, 0, State(false, 0), own, picker);
        assert 0 <= k;
        assert found == Some(picker);
      }
      if NoneNamed(lines, own) {
        if found.Some? {
          ScanFinds(lines, 0, State(false, 0), own, found.value);
          assert false;
        }
        assert Original(existing, own) == DEFAULT_PICKER;
      }
    }
  }

  lemma NothingOpen(lines: seq<string>, own: string)
    ensures Follows(lines, 0, State(false, 0))
    ensures forall i: nat, other: string :: i < 0 ==> !NamesPicker(lines, own, i, other)
  {
  }

  // ---------- Paths ----------

  predicate Plain(part: string) {
    part != "" && part != "." && '/' !in part
  }

  lemma {:induction false} KeptPlain(parts: seq<string>, first: bool)
    requires forall p :: p in parts ==> Plain(p)
    ensures Kept(parts, first) == parts
  {
    if parts != [] {
      assert parts[0] in parts && forall p :: p in parts[1..] ==> p in parts;
      KeptPlain(parts[1..], false);
      assert parts == [parts[0]] + parts[1..];
    }
  }

  /** Empty and `.` components in the middle do not count. */
  lemma {:induction false} KeptSkips(a: seq<string>, x: string, b: seq<string>, first: bool)
    requires a != [] && (x == "" || x == ".")
    ensures Kept(a + ([x] + b), first) == Kept(a + b, first)
    decreases |a|
  {
    assert (a + ([x] + b))[0] == a[0] == (a + b)[0];
    assert (a + ([x] + b))[1..] == a[1..] + ([x] + b) && (a + b)[1..] == a[1..] + b;
    if |a| == 1 {
      assert a[1..] + ([x] + b) == [x] + b && a[1..] + b == b && ([x] + b)[1..] == b;
    } else {
      KeptSkips(a[1..], x, b, false);
    }
  }

  lemma {:induction false} SplitAppend(a: string, c: char, b: string)
    ensures SplitOn(a + [c] + b, c) == SplitOn(a, c) + SplitOn(b, c)
    decreases |a|
  {
    hide SplitOn;
    if c in a {
      var front, rest := FirstPart(a, c);
      assert a + [c] + b == front + [c] + (rest + [c] + b);
      SplitOnCons(front, c, rest);
      SplitOnCons(front, c, rest + [c] + b);
      SplitAppend(rest, c, b);
    } else {
      SplitOnCons(a, c, b);
      SplitAlone(a, c);
    }
  }

  lemma FirstPart(a: string, c: char) returns (front: string, rest: string)
    requires c in a
    ensures a == front + [c] + rest && c !in front
  {
    var i := IndexOf(a, c);
    front, rest := a[..i], a[i + 1..];
  }

  lemma SplitAlone(a: string, c: char)
    requires c !in a
    ensures SplitOn(a, c) == [a]
  {
  }

  /** Main result: repeated slashes and `.` components do not change a path, nor does a slash at its end. */
  lemma NoiseIsSamePath(a: string, b: string)
    ensures SamePath(a + "//" + b, a + "/" + b) && SamePath(a + "/./" + b, a + "/" + b)
    ensures a != "" ==> SamePath(a + "/", a)
  {
    assert a + "//" + b == a + ['/'] + ("" + ['/'] + b) && a + "/./" + b == a + ['/'] + ("." + ['/'] + b);
    assert a + "/" + b == a + ['/'] + b;
    hide SamePath;
    OneNoise(a, "", b);
    OneNoise(a, ".", b);
    if a != "" {
      SlashAtEnd(a);
    }
  }

  lemma OneNoise(a: string, x: string, b: string)
    requires x == "" || x == "."
    ensures SamePath(a + ['/'] + (x + ['/'] + b), a + ['/'] + b)
  {
    var root := Rooted(a + ['/'] + b);
    assert Rooted(a + ['/'] + (x + ['/'] + b)) == root;
    hide SplitOn, Kept, Rooted;
    SplitAppend(a, '/', b);
    Between(a, x, b);
    KeptSkips(SplitOn(a, '/'), x, SplitOn(b, '/'), !root);
  }

  lemma SlashAtEnd(a: string)
    requires a != ""
    ensures SamePath(a + "/", a)
  {
    hide SplitOn, Kept, Rooted;
    Ending(a);
    var parts := SplitOn(a, '/');
    KeptSkips(parts, "", [], !Rooted(a));
    assert parts + ([""] + []) == parts + [""] && parts + [] == parts;
  }

  lemma Between(a: string, x: string, b: string)
    requires '/' !in x
    ensures SplitOn(a + ['/'] + (x + ['/'] + b), '/') == SplitOn(a, '/') + ([x] + SplitOn(b, '/'))
  {
    SplitAppend(a, '/', x + ['/'] + b);
    SplitOnCons(x, '/', b);
  }

  lemma Ending(a: string)
    requires a != ""
    ensures SplitOn(a + "/", '/') == SplitOn(a, '/') + [""] && Rooted(a + "/") == Rooted(a)
  {
    assert a + "/" == a + ['/'] + "";
    SplitAppend(a, '/', "");
    assert SplitOn("", '/') == [""];
  }

  /** Main result: paths of plain components are the same exactly when these are; a leading slash or dot makes a difference. */
  lemma PlainPaths(a: seq<string>, b: seq<string>)
    requires a != [] && b != [] && (forall p :: p in a ==> Plain(p)) && (forall p :: p in b ==> Plain(p))
    ensures SamePath(Join(a, "/"), Join(b, "/")) <==> a == b
    ensures SamePath("/" + Join(a, "/"), "/" + Join(b, "/")) <==> a == b
    ensures !SamePath("/" + Join(a, "/"), Join(b, "/")) && !SamePath("./" + Join(a, "/"), Join(b, "/"))
  {
    PlainJoin(a);
    PlainJoin(b);
    hide SplitOn, Join;
    PlainParts(a);
    PlainParts(b);
    KeptPlain(a, true);
    KeptPlain(a, false);
    KeptPlain(b, true);
    KeptPlain(b, false);
    RootedParts(a);
    RootedParts(b);
    DottedParts(a);
    assert b[0] in b;
  }

  lemma PlainParts(a: seq<string>)
    requires a != [] && forall p :: p in a ==> Plain(p)
    ensures SplitOn(Join(a, "/"), '/') == a
  {
    hide SplitOn, Join;
    SplitJoin(a, '/');
  }

  lemma PlainJoin(a: seq<string>)
    requires a != [] && forall p :: p in a ==> Plain(p)
    ensures Join(a, "/") != "" && !Rooted(Join(a, "/")) && Rooted("/" + Join(a, "/")) && !Rooted("./" + Join(a, "/"))
  {
    assert a[0] in a && a[0][0] in a[0];
    assert Join(a, "/")[0] == a[0][0];
  }

  lemma RootedParts(a: seq<string>)
    requires a != [] && forall p :: p in a ==> Plain(p)
    ensures SplitOn("/" + Join(a, "/"), '/') == [""] + a && Kept([""] + a, false) == a
  {
    PlainParts(a);
    KeptPlain(a, false);
    hide Join;
    assert "/" + Join(a, "/") == "" + ['/'] + Join(a, "/");
    SplitOnCons("", '/', Join(a, "/"));
    assert ([""] + a)[1..] == a;
  }

  lemma DottedParts(a: seq<string>)
    requires a != [] && forall p :: p in a ==> Plain(p)
    ensures SplitOn("./" + Join(a, "/"), '/') == ["."] + a && Kept(["."] + a, true) == ["."] + a
  {
    PlainParts(a);
    KeptPlain(a, false);
    hide Join;
    assert "./" + Join(a, "/") == "." + ['/'] + Join(a, "/");
    SplitOnCons(".", '/', Join(a, "/"));
    assert (["."] + a)[1..] == a;
  }
}
