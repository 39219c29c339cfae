/** Rust's `Option` and `Result`. */
module Wrappers {
  datatype Option<+T> = None | Some(value: T)

  datatype Result<+T, +E> = Success(value: T) | Failure(error: E)
}

/**
 The string operations of the Rust standard library that the models rely on: searching, splitting
 into lines, words and fields, trimming, and printing and parsing unsigned numbers.
 Text is a sequence of characters; where the program counts bytes the text is ASCII.
 */
module Text {
  import opened Wrappers

  // ---------- Searching ----------

  predicate At(s: string, pat: string, i: nat) {
    i + |pat| <= |s| && s[i..i + |pat|] == pat
  }

  /** The first position at or after `from` where `pat` occurs. */
  function FindFrom(s: string, pat: string, from: nat): (r: Option<nat>)
    ensures r.Some? ==> from <= r.value && At(s, pat, r.value) && forall j: nat :: from <= j < r.value ==> !At(s, pat, j)
    ensures r.None? ==> forall j: nat :: from <= j ==> !At(s, pat, j)
    decreases |s| - from
  {
    if from + |pat| > |s| then None
    else if s[from..from + |pat|] == pat then Some(from)
    else FindFrom(s, pat, from + 1)
  }

  function Find(s: string, pat: string): (r: Option<nat>)
    ensures r.Some? ==> At(s, pat, r.value) && forall j: nat :: j < r.value ==> !At(s, pat, j)
    ensures r.None? ==> forall j: nat :: !At(s, pat, j)
  {
    FindFrom(s, pat, 0)
  }

  predicate Contains(s: string, pat: string) {
    Find(s, pat).Some?
  }

  lemma FindIs(s: string, pat: string, i: nat)
    requires At(s, pat, i)
    requires forall j: nat :: j < i ==> !At(s, pat, j)
    ensures Find(s, pat) == Some(i)
  {
  }

  lemma FindNone(s: string, pat: string)
    requires forall j: nat :: !At(s, pat, j)
    ensures Find(s, pat) == None
  {
  }

  /** An occurrence that does not reach `suffix` is an occurrence in the part before it, and conversely. */
  lemma AtPrefix(s: string, suffix: string, pat: string, i: nat)
    requires i + |pat| <= |s|
    ensures At(s + suffix, pat, i) <==> At(s, pat, i)
  {
    assert (s + suffix)[i..i + |pat|] == s[i..i + |pat|];
  }

  /** An occurrence behind a prefix is an occurrence in what follows the prefix. */
  lemma AtSuffix(prefix: string, s: string, pat: string, i: nat)
    requires |prefix| <= i
    ensures At(prefix + s, pat, i) <==> At(s, pat, i - |prefix|)
  {
    if i + |pat| <= |prefix + s| {
      assert (prefix + s)[i..i + |pat|] == s[i - |prefix|..i - |prefix| + |pat|];
    }
  }

  /** The characters of an occurrence. */
  lemma AtChars(s: string, pat: string, i: nat, k: nat)
    requires At(s, pat, i) && k < |pat|
    ensures s[i + k] == pat[k]
  {
    assert s[i..i + |pat|][k] == pat[k];
  }

  /** A pattern that cannot contain the separating character does not straddle it. */
  lemma NoStraddle(a: string, c: char, b: string, pat: string)
    requires c !in pat && pat != ""
    ensures Contains(a + [c] + b, pat) <==> Contains(a, pat) || Contains(b, pat)
  {
    var s := a + [c] + b;
    assert s == a + ([c] + b);
    if Contains(s, pat) {
      var i := Find(s, pat).value;
      if i + |pat| <= |a| {
        AtPrefix(a, [c] + b, pat, i);
      } else if |a| < i {
        assert s == (a + [c]) + b;
        AtSuffix(a + [c], b, pat, i);
      } else {
        AtChars(s, pat, i, |a| - i);
        assert false;
      }
    }
    if Contains(a, pat) {
      AtPrefix(a, [c] + b, pat, Find(a, pat).value);
    }
    if Contains(b, pat) {
      assert s == (a + [c]) + b;
      AtSuffix(a + [c], b, pat, Find(b, pat).value + |a| + 1);
    }
  }

  /** The position of the first `c`. */
  function IndexOf(s: string, c: char): (i: nat)
    requires c in s
    ensures i < |s| && s[i] == c && forall j :: 0 <= j < i ==> s[j] != c
  {
    if s[0] == c then 0 else 1 + IndexOf(s[1..], c)
  }

  lemma IndexOfIs(a: string, c: char, b: string)
    requires c !in a
    ensures c in a + [c] + b && IndexOf(a + [c] + b, c) == |a|
  {
    var s := a + [c] + b;
    assert s[|a|] == c && forall j :: 0 <= j < |a| ==> s[j] == a[j];
  }

  // ---------- Splitting on a character ----------

  /** `str::split` on one character. */
  function SplitOn(s: string, c: char): (parts: seq<string>)
    ensures |parts| > 0 && forall part :: part in parts ==> c !in part
    decreases |s|
  {
    if c !in s then [s] else var i := IndexOf(s, c); [s[..i]] + SplitOn(s[i + 1..], c)
  }

  lemma SplitOnCons(a: string, c: char, b: string)
    requires c !in a
    ensures SplitOn(a + [c] + b, c) == [a] + SplitOn(b, c)
  {
    IndexOfIs(a, c, b);
    var s := a + [c] + b;
    assert s[..|a|] == a && s[|a| + 1..] == b;
  }

  function Join(parts: seq<string>, sep: string): string {
    if |parts| == 0 then "" else if |parts| == 1 then parts[0] else parts[0] + sep + Join(parts[1..], sep)
  }

  lemma {:induction false} JoinAppend(a: seq<string>, b: seq<string>, sep: string)
    requires a != [] && b != []
    ensures Join(a + b, sep) == Join(a, sep) + sep + Join(b, sep)
  {
    if |a| == 1 {
      assert (a + b)[1..] == b;
    } else {
      JoinAppend(a[1..], b, sep);
      assert (a + b)[1..] == a[1..] + b;
    }
  }

  lemma {:induction false} SplitJoin(parts: seq<string>, c: char)
    requires parts != [] && forall part :: part in parts ==> c !in part
    ensures SplitOn(Join(parts, [c]), c) == parts
  {
    if |parts| > 1 {
      SplitOnCons(parts[0], c, Join(parts[1..], [c]));
      SplitJoin(parts[1..], c);
    }
  }

  // ---------- Lines ----------

  function StripCR(line: string): string {
    if line != "" && line[|line| - 1] == '\r' then line[..|line| - 1] else line
  }

  /** `str::lines`: a final line needs no line feed and then keeps a trailing carriage return. */
  function Lines(s: string): (lines: seq<string>)
    ensures forall line :: line in lines ==> '\n' !in line
    decreases |s|
  {
    if s == "" then []
    else if '\n' in s then var i := IndexOf(s, '\n'); [StripCR(s[..i])] + Lines(s[i + 1..])
    else [s]
  }

  lemma LinesCons(line: string, rest: string)
    requires '\n' !in line
    ensures Lines(line + "\n" + rest) == [StripCR(line)] + Lines(rest)
  {
    assert line + "\n" + rest == line + ['\n'] + rest;
    IndexOfIs(line, '\n', rest);
    var s := line + "\n" + rest;
    assert s[..|line|] == line && s[|line| + 1..] == rest;
  }

  lemma LinesConsCRLF(line: string, rest: string)
    requires '\n' !in line
    ensures Lines(line + "\r\n" + rest) == [line] + Lines(rest)
  {
    assert line + "\r\n" + rest == (line + "\r") + "\n" + rest;
    LinesCons(line + "\r", rest);
    assert (line + "\r")[..|line|] == line;
  }

  /** A text that ends its line splits into its first line and a shorter such text. */
  lemma FirstLine(a: string) returns (line: string, rest: string)
    requires a != "" && a[|a| - 1] == '\n'
    ensures '\n' !in line && a == line + "\n" + rest
    ensures rest == "" || rest[|rest| - 1] == '\n'
  {
    assert '\n' in a;
    var i := IndexOf(a, '\n');
    line, rest := a[..i], a[i + 1..];
  }

  /** The unfinished last line of a text. */
  lemma {:induction false} LastLine(text: string) returns (head: string, last: string)
    requires text != "" && text[|text| - 1] != '\n'
    ensures text == head + last && last != "" && '\n' !in last && (head == "" || head[|head| - 1] == '\n')
    decreases |text|
  {
    if |text| == 1 || text[|text| - 2] == '\n' {
      head, last := text[..|text| - 1], text[|text| - 1..];
    } else {
      head, last := LastLine(text[..|text| - 1]);
      last := last + text[|text| - 1..];
    }
  }

  lemma NoLines()
    ensures Lines("") == []
  {
  }

  lemma LinesAppendStep(line: string, rest: string, b: string)
    requires '\n' !in line && Lines(rest + b) == Lines(rest) + Lines(b)
    ensures Lines(line + "\n" + rest + b) == Lines(line + "\n" + rest) + Lines(b)
  {
    hide *;
    LinesCons(line, rest);
    LinesCons(line, rest + b);
    assert line + "\n" + rest + b == line + "\n" + (rest + b);
  }

  /** Splitting into lines at a place where the first part ends its line. */
  lemma {:induction false} LinesAppend(a: string, b: string)
    requires a == "" || a[|a| - 1] == '\n'
    ensures Lines(a + b) == Lines(a) + Lines(b)
    decreases |a|
  {
    hide Lines, StripCR;
    if a == "" {
      NoLines();
      assert a + b == b;
    } else {
      var line, rest := FirstLine(a);
      LinesAppend(rest, b);
      LinesAppendStep(line, rest, b);
    }
  }

  /** The text of a list of lines, each ended by CR LF. */
  function CrLf(lines: seq<string>): string {
    if lines == [] then "" else lines[0] + "\r\n" + CrLf(lines[1..])
  }

  predicate NoBreaks(lines: seq<string>) {
    forall line :: line in lines ==> '\n' !in line
  }

  lemma CrLfCons(line: string, lines: seq<string>, rest: string)
    ensures CrLf([line] + lines) + rest == line + "\r\n" + (CrLf(lines) + rest)
  {
    assert ([line] + lines)[1..] == lines;
  }

  lemma {:induction false} CrLfLines(lines: seq<string>, rest: string)
    requires NoBreaks(lines)
    ensures Lines(CrLf(lines) + rest) == lines + Lines(rest)
  {
    hide Lines;
    if lines != [] {
      CrLfLines(lines[1..], rest);
      CrLfCons(lines[0], lines[1..], rest);
      LinesConsCRLF(lines[0], CrLf(lines[1..]) + rest);
      assert lines == [lines[0]] + lines[1..];
    } else {
      assert CrLf(lines) + rest == rest;
    }
  }

  lemma {:induction false} CrLfAppend(a: seq<string>, b: seq<string>)
    ensures CrLf(a + b) == CrLf(a) + CrLf(b)
  {
    if a == [] {
      assert a + b == b;
    } else {
      assert (a + b)[1..] == a[1..] + b;
      CrLfAppend(a[1..], b);
    }
  }

  /** Joining parts with CR LF ends every part but the last. */
  lemma {:induction false} JoinCrLf(parts: seq<string>, last: string)
    ensures Join(parts + [last], "\r\n") == CrLf(parts) + last
  {
    if parts != [] {
      assert (parts + [last])[1..] == parts[1..] + [last];
      JoinCrLf(parts[1..], last);
    }
  }

  // ---------- White space ----------

  /** The Unicode property White_Space. */
  predicate IsSpace(c: char) {
    '\t' <= c <= '\r' || c == ' ' || c == '\U{85}' || c == '\U{A0}' || c == '\U{1680}' || '\U{2000}' <= c <= '\U{200A}'
    || c == '\U{2028}' || c == '\U{2029}' || c == '\U{202F}' || c == '\U{205F}' || c == '\U{3000}'
  }

  predicate IsToken(s: string) {
    s != "" && forall c :: c in s ==> !IsSpace(c)
  }

  function TokenLength(s: string): (n: nat)
    ensures n <= |s| && (forall j :: 0 <= j < n ==> !IsSpace(s[j])) && (n < |s| ==> IsSpace(s[n]))
  {
    if s == "" || IsSpace(s[0]) then 0 else 1 + TokenLength(s[1..])
  }

  /** `str::split_whitespace`. */
  function Words(s: string): (words: seq<string>)
    ensures forall w :: w in words ==> IsToken(w)
    ensures forall w, c :: w in words && c in w ==> c in s
    decreases |s|
  {
    if s == "" then []
    else if IsSpace(s[0]) then Words(s[1..])
    else
      var n := TokenLength(s);
      [s[..n]] + Words(s[n..])
  }

  lemma WordsCons(w: string, rest: string)
    requires IsToken(w)
    requires rest == "" || IsSpace(rest[0])
    ensures Words(w + rest) == [w] + Words(rest)
  {
    var s := w + rest;
    var n := TokenLength(s);
    assert forall j :: 0 <= j < |w| ==> s[j] == w[j] && w[j] in w;
    assert forall j :: 0 <= j < |rest| ==> s[|w| + j] == rest[j];
    assert s[..n] == w && s[n..] == rest;
  }

  lemma {:induction false} WordsJoin(words: seq<string>)
    requires forall w :: w in words ==> IsToken(w)
    ensures Words(Join(words, " ")) == words
  {
    if |words| == 1 {
      assert words[0] + "" == words[0];
      WordsCons(words[0], "");
    } else if |words| > 1 {
      var rest := Join(words[1..], " ");
      WordsJoin(words[1..]);
      assert Join(words, " ") == words[0] + (" " + rest);
      WordsCons(words[0], " " + rest);
      assert (" " + rest)[1..] == rest;
      assert words == [words[0]] + words[1..];
    }
  }

  function TrimStart(s: string): string {
    if s != "" && IsSpace(s[0]) then TrimStart(s[1..]) else s
  }

  function TrimEnd(s: string): string {
    if s != "" && IsSpace(s[|s| - 1]) then TrimEnd(s[..|s| - 1]) else s
  }

  function Trim(s: string): string {
    TrimEnd(TrimStart(s))
  }

  /** No white space at either edge. */
  predicate Trimmed(s: string) {
    s == "" || (!IsSpace(s[0]) && !IsSpace(s[|s| - 1]))
  }

  lemma {:induction false} TrimStartTrims(s: string)
    ensures TrimStart(s) == "" || !IsSpace(TrimStart(s)[0])
    ensures |TrimStart(s)| <= |s| && TrimStart(s) == s[|s| - |TrimStart(s)|..]
  {
    if s != "" && IsSpace(s[0]) {
      TrimStartTrims(s[1..]);
    }
  }

  lemma {:induction false} TrimEndTrims(s: string)
    ensures TrimEnd(s) == "" || !IsSpace(TrimEnd(s)[|TrimEnd(s)| - 1])
    ensures |TrimEnd(s)| <= |s| && TrimEnd(s) == s[..|TrimEnd(s)|]
  {
    if s != "" && IsSpace(s[|s| - 1]) {
      TrimEndTrims(s[..|s| - 1]);
    }
  }

  lemma TrimTrims(s: string)
    ensures Trimmed(Trim(s))
    ensures forall c :: c in Trim(s) ==> c in s
  {
    TrimStartTrims(s);
    TrimEndTrims(TrimStart(s));
  }

  lemma TrimIdentity(s: string)
    requires Trimmed(s)
    ensures Trim(s) == s
  {
  }

  /** White space at the edges does not change the words. */
  lemma WordsOfTrim(s: string)
    ensures Words(Trim(s)) == Words(s)
  {
    hide Words, TrimStart, TrimEnd;
    WordsOfTrimStart(s);
    WordsOfTrimEnd(TrimStart(s));
  }

  lemma {:induction false} WordsOfTrimStart(s: string)
    ensures Words(TrimStart(s)) == Words(s)
  {
    if s != "" && IsSpace(s[0]) {
      WordsOfTrimStart(s[1..]);
    }
  }

  lemma {:induction false} WordsOfTrimEnd(s: string)
    ensures Words(TrimEnd(s)) == Words(s)
  {
    if s != "" && IsSpace(s[|s| - 1]) {
      var front, last := s[..|s| - 1], s[|s| - 1];
      assert s == front + [last];
      hide Words, IsSpace;
      WordsOfTrimEnd(front);
      TrailingSpace(front, last);
    }
  }

  lemma {:induction false} TrailingSpace(s: string, c: char)
    requires IsSpace(c)
    ensures Words(s + [c]) == Words(s)
    decreases |s|
  {
    hide IsSpace;
    if s == "" {
      assert (s + [c])[1..] == "" && (s + [c])[0] == c;
    } else if IsSpace(s[0]) {
      assert (s + [c])[1..] == s[1..] + [c] && (s + [c])[0] == s[0];
      TrailingSpace(s[1..], c);
    } else {
      var n := TokenLength(s);
      var w, rest := s[..n], s[n..];
      FirstToken(s);
      assert s == w + rest && s + [c] == w + (rest + [c]);
      assert (rest + [c])[0] == if rest == "" then c else rest[0];
      hide Words;
      WordsCons(w, rest);
      WordsCons(w, rest + [c]);
      TrailingSpace(rest, c);
    }
  }

  lemma FirstToken(s: string)
    requires s != "" && !IsSpace(s[0])
    ensures TokenLength(s) > 0 && IsToken(s[..TokenLength(s)])
    ensures s[TokenLength(s)..] == "" || IsSpace(s[TokenLength(s)..][0])
  {
  }

  lemma TokenTrimmed(s: string)
    requires IsToken(s)
    ensures Trim(s) == s
  {
    assert s[0] in s && s[|s| - 1] in s;
  }

  lemma TrimLeadingSpace(s: string)
    ensures Trim(" " + s) == Trim(s)
  {
    assert (" " + s)[1..] == s;
  }

  // ---------- Letter case ----------

  function LowerChar(c: char): char {
    if 'A' <= c <= 'Z' then (c as int + 32) as char else c
  }

  /** `str::to_lowercase`, on ASCII letters. */
  function Lower(s: string): (t: string)
    ensures |t| == |s|
  {
    seq(|s|, i requires 0 <= i < |s| => LowerChar(s[i]))
  }

  lemma LowerAppend(a: string, b: string)
    ensures Lower(a + b) == Lower(a) + Lower(b)
  {
  }

  // ---------- Unsigned numbers ----------

  const DIGITS := "0123456789ABCDEF"
  const MAX_U16: nat := 0xFFFF
  const MAX_U32: nat := 0xFFFF_FFFF
  const MAX_U64: nat := 0xFFFF_FFFF_FFFF_FFFF

  type Radix = r: nat | r == 10 || r == 16 witness 10

  function DigitValue(c: char, radix: Radix): (v: Option<nat>)
    ensures v.Some? ==> v.value < radix
  {
    var d := if '0' <= c <= '9' then c as int - '0' as int
             else if 'a' <= c <= 'f' then c as int - 'a' as int + 10
             else if 'A' <= c <= 'F' then c as int - 'A' as int + 10
             else 16;
    if d < radix then Some(d) else None
  }

  function Digits(n: nat, radix: Radix): (s: string)
    ensures s != "" && forall c :: c in s ==> '0' <= c <= '9' || (10 < radix && 'A' <= c <= 'F')
  {
    if n < radix then [DIGITS[n]] else Digits(n / radix, radix) + [DIGITS[n % radix]]
  }

  /** The number a non-empty digit string denotes; the empty string stands for zero. */
  function Value(s: string, radix: Radix): Option<nat> {
    if s == "" then Some(0)
    else
      match (Value(s[..|s| - 1], radix), DigitValue(s[|s| - 1], radix))
      case (Some(high), Some(low)) => Some(high * radix + low)
      case _ => None
  }

  /** `parse` and `from_str_radix` for unsigned integers: an optional plus sign, then at least one digit. */
  function ParseUnsigned(s: string, radix: Radix, max: nat): (r: Option<nat>)
    ensures r.Some? ==> r.value <= max
  {
    var body := if s != "" && s[0] == '+' then s[1..] else s;
    if body == "" then None
    else match Value(body, radix)
      case None => None
      case Some(v) => if v <= max then Some(v) else None
  }

  lemma DigitRoundTrip(d: nat, radix: Radix)
    requires d < radix
    ensures DigitValue(DIGITS[d], radix) == Some(d)
  {
  }

  lemma Recompose(n: nat, radix: Radix)
    ensures n / radix * radix + n % radix == n
  {
  }

  lemma DigitsAre(n: nat, radix: Radix)
    ensures Digits(n, radix) == (if n < radix then "" else Digits(n / radix, radix)) + [DIGITS[n % radix]]
  {
  }

  lemma {:induction false} ValueOfDigits(n: nat, radix: Radix)
    ensures Value(Digits(n, radix), radix) == Some(n)
  {
    DigitsAre(n, radix);
    if n < radix {
      hide DIGITS, Digits, DigitValue;
      ValueAppend("", n, radix);
    } else {
      var high, low := n / radix, n % radix;
      ValueOfDigits(high, radix);
      hide *;
      ValueAppend(Digits(high, radix), low, radix);
      Recompose(n, radix);
    }
  }

  lemma ValueAppend(s: string, d: nat, radix: Radix)
    requires d < radix && Value(s, radix).Some?
    ensures Value(s + [DIGITS[d]], radix) == Some(Value(s, radix).value * radix + d)
  {
    DigitRoundTrip(d, radix);
    hide DIGITS, DigitValue, Value;
    ValueOfSnoc(s, DIGITS[d], radix, d);
  }

  lemma ValueSteps(t: string, radix: Radix, d: nat)
    requires t != "" && DigitValue(t[|t| - 1], radix) == Some(d) && Value(t[..|t| - 1], radix).Some?
    ensures Value(t, radix) == Some(Value(t[..|t| - 1], radix).value * radix + d)
  {
    hide DigitValue;
  }

  lemma ValueOfSnoc(s: string, c: char, radix: Radix, d: nat)
    requires DigitValue(c, radix) == Some(d) && Value(s, radix).Some?
    ensures Value(s + [c], radix) == Some(Value(s, radix).value * radix + d)
  {
    hide DigitValue, Value;
    var t := s + [c];
    assert t[..|t| - 1] == s && t[|t| - 1] == c;
    ValueSteps(t, radix, d);
  }

  function Zeros(n: nat): (s: string)
    ensures |s| == n && forall c :: c in s ==> c == '0'
  {
    seq(n, _ => '0')
  }

  /** The number printed with at least `width` digits, as `{:02X}` and `{:08X}` do. */
  function Padded(n: nat, radix: Radix, width: nat): (s: string)
    ensures s != "" && forall c :: c in s ==> '0' <= c <= '9' || (10 < radix && 'A' <= c <= 'F')
  {
    var digits := Digits(n, radix);
    if |digits| < width then Zeros(width - |digits|) + digits else digits
  }

  lemma {:induction false} ValueOfPadded(zeros: nat, s: string, radix: Radix)
    ensures Value(Zeros(zeros) + s, radix) == Value(s, radix)
    decreases zeros + |s|
  {
    var t := Zeros(zeros) + s;
    if s == "" {
      if zeros > 0 {
        assert t[..|t| - 1] == Zeros(zeros - 1) + "";
        ValueOfPadded(zeros - 1, "", radix);
      }
    } else {
      assert t[..|t| - 1] == Zeros(zeros) + s[..|s| - 1];
      ValueOfPadded(zeros, s[..|s| - 1], radix);
    }
  }

  /** What is printed, padded or not, is parsed back. */
  lemma ParsePrinted(n: nat, radix: Radix, width: nat, max: nat)
    requires n <= max
    ensures ParseUnsigned(Digits(n, radix), radix, max) == Some(n)
    ensures ParseUnsigned(Padded(n, radix, width), radix, max) == Some(n)
  {
    ValueOfDigits(n, radix);
    hide Value, Digits, DigitValue, Zeros, DIGITS;
    var digits := Digits(n, radix);
    assert digits[0] in digits;
    var padded := Padded(n, radix, width);
    assert padded[0] in padded;
    if |digits| < width {
      ValueOfPadded(width - |digits|, digits, radix);
    }
  }

  /** Numbers read the same in either letter case. */
  lemma {:induction false} ValueOfLower(s: string, radix: Radix)
    ensures Value(Lower(s), radix) == Value(s, radix)
  {
    if s != "" {
      var front, last := s[..|s| - 1], s[|s| - 1];
      assert Lower(s)[..|s| - 1] == Lower(front) && Lower(s)[|s| - 1] == LowerChar(last);
      LowerDigit(last, radix);
      hide DigitValue, Lower;
      ValueOfLower(front, radix);
    }
  }

  lemma LowerDigit(c: char, radix: Radix)
    ensures DigitValue(LowerChar(c), radix) == DigitValue(c, radix)
  {
  }

  lemma ParseLower(s: string, radix: Radix, max: nat)
    ensures ParseUnsigned(Lower(s), radix, max) == ParseUnsigned(s, radix, max)
  {
    hide Value;
    var body := if s != "" && s[0] == '+' then s[1..] else s;
    assert s != "" ==> Lower(s)[1..] == Lower(s[1..]);
    ValueOfLower(body, radix);
  }

  lemma FitsExactly(n: nat, max: nat)
    ensures ParseUnsigned(Digits(n, 10), 10, max).Some? <==> n <= max
  {
    ValueOfDigits(n, 10);
    hide Value, Digits;
    assert Digits(n, 10)[0] in Digits(n, 10);
  }

  /** A printed number is read exactly when it has the width asked for. */
  lemma NumbersThatFit(n: nat)
    ensures ParseUnsigned(Digits(n, 10), 10, MAX_U16).Some? <==> n < 256 * 256
    ensures ParseUnsigned(Digits(n, 10), 10, MAX_U32).Some? <==> n < 256 * 256 * (256 * 256)
    ensures ParseUnsigned(Digits(n, 10), 10, MAX_U64).Some? <==> n < 256 * 256 * (256 * 256) * (256 * 256 * (256 * 256))
  {
    hide ParseUnsigned, Digits;
    FitsExactly(n, MAX_U16);
    FitsExactly(n, MAX_U32);
    FitsExactly(n, MAX_U64);
  }

  lemma DigitsAreToken(n: nat, radix: Radix, width: nat)
    ensures IsToken(Digits(n, radix)) && IsToken(Padded(n, radix, width))
  {
  }
}
