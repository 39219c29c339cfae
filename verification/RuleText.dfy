/**
 Firewall rules as text: the normal form under which two printed rules are compared, and what that
 comparison is worth for the packets the rules admit.
 */
module RuleText {
  import opened Wrappers
  import opened Text

  // ---------- The normal form ----------

  /** `str::replace` with the empty string: all occurrences, from left to right. */
  function RemoveAll(s: string, pat: string): string
    requires pat != ""
    decreases |s|
  {
    match Find(s, pat)
    case None => s
    case Some(i) => s[..i] + RemoveAll(s[i + |pat|..], pat)
  }

  const TCP_MODULE := " -m tcp"
  const UDP_MODULE := " -m udp"

  function Clean(s: string): string {
    RemoveAll(RemoveAll(s, TCP_MODULE), UDP_MODULE)
  }

  /** The tokens in chunks of two, each joined by a space; an odd last token stands alone. */
  function PairTexts(tokens: seq<string>): seq<string> {
    if tokens == [] then []
    else if |tokens| == 1 then [tokens[0]]
    else [tokens[0] + " " + tokens[1]] + PairTexts(tokens[2..])
  }

  /** The flag/value pairs of a rule. */
  function Pairs(rule: string): seq<string> {
    PairTexts(Words(Clean(rule)))
  }

  /** The order of strings. */
  predicate Leq(a: string, b: string) {
    a == "" || (b != "" && (a[0] < b[0] || (a[0] == b[0] && Leq(a[1..], b[1..]))))
  }

  function Insert(x: string, s: seq<string>): seq<string> {
    if s == [] || Leq(x, s[0]) then [x] + s else [s[0]] + Insert(x, s[1..])
  }

  function Sort(s: seq<string>): seq<string> {
    if s == [] then [] else Insert(s[0], Sort(s[1..]))
  }

  function NormalizeRule(rule: string): string {
    Join(Sort(Pairs(rule)), " ")
  }

  // ---------- Sorting ----------

  predicate Sorted(s: seq<string>) {
    forall i, j :: 0 <= i < j < |s| ==> Leq(s[i], s[j])
  }

  lemma {:induction false} LeqTotal(a: string, b: string)
    ensures Leq(a, b) || Leq(b, a)
  {
    if a != "" && b != "" && a[0] == b[0] {
      LeqTotal(a[1..], b[1..]);
    }
  }

  lemma {:induction false} LeqAntisymmetric(a: string, b: string)
    requires Leq(a, b) && Leq(b, a)
    ensures a == b
  {
    if a != "" && b != "" {
      LeqAntisymmetric(a[1..], b[1..]);
      assert a == [a[0]] + a[1..] && b == [b[0]] + b[1..];
    }
  }

  lemma {:induction false} LeqTransitive(a: string, b: string, c: string)
    requires Leq(a, b) && Leq(b, c)
    ensures Leq(a, c)
  {
    if a != "" && a[0] == b[0] && b[0] == c[0] {
      LeqTransitive(a[1..], b[1..], c[1..]);
    }
  }

  lemma {:induction false} InsertMembers(x: string, s: seq<string>)
    ensures multiset(Insert(x, s)) == multiset(s) + multiset{x}
  {
    hide Leq;
    if s != [] && !Leq(x, s[0]) {
      InsertMembers(x, s[1..]);
      assert s == [s[0]] + s[1..];
    }
  }

  lemma SortedCons(x: string, s: seq<string>)
    requires Sorted(s) && forall y :: y in s ==> Leq(x, y)
    ensures Sorted([x] + s)
  {
    hide Leq;
  }

  /** The head of a sorted sequence is below every member. */
  lemma HeadIsLeast(s: seq<string>, y: string)
    requires Sorted(s) && y in s
    ensures Leq(s[0], y)
  {
    LeqTotal(y, y);
    hide Leq;
  }

  lemma {:induction false} InsertSorted(x: string, s: seq<string>)
    requires Sorted(s)
    ensures Sorted(Insert(x, s))
  {
    hide Leq;
    if s == [] || Leq(x, s[0]) {
      forall y | y in s ensures Leq(x, y) {
        HeadIsLeast(s, y);
        LeqTransitive(x, s[0], y);
      }
      SortedCons(x, s);
    } else {
      InsertSorted(x, s[1..]);
      InsertMembers(x, s[1..]);
      LeqTotal(x, s[0]);
      forall y | y in Insert(x, s[1..]) ensures Leq(s[0], y) {
        assert y in multiset(Insert(x, s[1..]));
        if y != x {
          HeadIsLeast(s, y);
        }
      }
      SortedCons(s[0], Insert(x, s[1..]));
    }
  }

  lemma {:induction false} SortSorts(s: seq<string>)
    ensures Sorted(Sort(s)) && multiset(Sort(s)) == multiset(s)
  {
    hide Leq;
    if s != [] {
      SortSorts(s[1..]);
      InsertSorted(s[0], Sort(s[1..]));
      InsertMembers(s[0], Sort(s[1..]));
      assert s == [s[0]] + s[1..];
    }
  }

  lemma SameHead(a: seq<string>, b: seq<string>)
    requires Sorted(a) && Sorted(b) && multiset(a) == multiset(b) && a != []
    ensures b != [] && a[0] == b[0]
  {
    hide Leq;
    assert a[0] in multiset(a);
    assert a[0] in multiset(b);
    assert b[0] in multiset(b);
    assert b[0] in multiset(a);
    HeadIsLeast(a, b[0]);
    HeadIsLeast(b, a[0]);
    LeqAntisymmetric(a[0], b[0]);
  }

  lemma RestMultiset(s: seq<string>)
    requires s != []
    ensures s == [s[0]] + s[1..] && multiset(s[1..]) == multiset(s) - multiset{s[0]}
  {
    assert s == [s[0]] + s[1..];
  }

  lemma {:induction false} SortedUnique(a: seq<string>, b: seq<string>)
    requires Sorted(a) && Sorted(b) && multiset(a) == multiset(b)
    ensures a == b
  {
    hide Leq;
    if a != [] {
      SameHead(a, b);
      RestMultiset(a);
      RestMultiset(b);
      SortedUnique(a[1..], b[1..]);
    } else if b != [] {
      SameHead(b, a);
    }
  }

  lemma SortPermutation(a: seq<string>, b: seq<string>)
    ensures multiset(a) == multiset(b) <==> Sort(a) == Sort(b)
  {
    SortSorts(a);
    SortSorts(b);
    if multiset(a) == multiset(b) {
      SortedUnique(Sort(a), Sort(b));
    }
  }

  /** The normal form does not depend on the order of the pairs. */
  lemma NormalFormOfPairs(a: string, b: string)
    requires multiset(Pairs(a)) == multiset(Pairs(b))
    ensures NormalizeRule(a) == NormalizeRule(b)
  {
    SortPermutation(Pairs(a), Pairs(b));
  }

  // ---------- The normal form determines the pairs ----------

  /** Two tokens with a space between them. */
  ghost predicate IsPair(text: string) {
    exists a, b :: IsToken(a) && IsToken(b) && text == a + " " + b
  }

  /** One or two tokens. */
  ghost predicate IsPairOrToken(text: string) {
    IsToken(text) || IsPair(text)
  }

  lemma PairWords(a: string, b: string, rest: string)
    requires IsToken(a) && IsToken(b) && (rest == "" || IsSpace(rest[0]))
    ensures Words(a + " " + b + rest) == [a, b] + Words(rest)
  {
    hide Words;
    var tail := " " + (b + rest);
    WordsCons(b, rest);
    LeadingSpace(b + rest);
    WordsCons(a, tail);
    assert a + " " + b + rest == a + tail;
    assert [a] + ([b] + Words(rest)) == [a, b] + Words(rest);
  }

  function Flat(texts: seq<string>): seq<string> {
    if texts == [] then [] else Words(texts[0]) + Flat(texts[1..])
  }

  lemma TextWords(text: string, rest: string)
    requires IsPairOrToken(text) && (rest == "" || IsSpace(rest[0]))
    ensures Words(text + rest) == Words(text) + Words(rest) && 1 <= |Words(text)| <= 2
    ensures IsPair(text) <==> |Words(text)| == 2
  {
    hide Words, IsToken;
    NoWords();
    assert text + "" == text;
    if IsToken(text) {
      TokenIsNotPair(text);
      WordsCons(text, rest);
      WordsCons(text, "");
      assert [text] + [] == [text];
    } else {
      var a, b :| IsToken(a) && IsToken(b) && text == a + " " + b;
      PairWords(a, b, rest);
      PairWords(a, b, "");
      assert [a, b] + [] == [a, b];
    }
  }

  lemma TokenIsNotPair(text: string)
    requires IsToken(text)
    ensures !IsPair(text)
  {
    forall a, b | IsToken(a) && IsToken(b) ensures text != a + " " + b {
      var pair := a + " " + b;
      assert pair[|a|] == ' ';
      assert ' ' in pair;
    }
  }

  lemma {:induction false} JoinedWords(texts: seq<string>)
    requires forall t :: t in texts ==> IsPairOrToken(t)
    ensures Words(Join(texts, " ")) == Flat(texts)
  {
    hide Words, IsPairOrToken;
    if |texts| == 1 {
      assert texts[1..] == [] && Flat(texts[1..]) == [];
    } else if |texts| > 1 {
      var rest := Join(texts[1..], " ");
      JoinedWords(texts[1..]);
      TextWords(texts[0], " " + rest);
      LeadingSpace(rest);
      assert Join(texts, " ") == texts[0] + (" " + rest);
    } else {
      NoWords();
    }
  }

  lemma NoWords()
    ensures Words("") == []
  {
  }

  lemma LeadingSpace(rest: string)
    ensures Words(" " + rest) == Words(rest)
  {
    assert (" " + rest)[1..] == rest;
  }

  lemma {:induction false} FlatDetermines(a: seq<string>, b: seq<string>)
    requires (forall t :: t in a ==> IsPair(t)) && (forall t :: t in b ==> IsPair(t)) && Flat(a) == Flat(b)
    ensures a == b
  {
    hide Words, IsPair;
    if a != [] {
      PairIsItsWords(a[0]);
    }
    if b != [] {
      PairIsItsWords(b[0]);
    }
    if a != [] && b != [] {
      FirstTwoWords(Words(a[0]), Flat(a[1..]), Words(b[0]), Flat(b[1..]));
      FlatDetermines(a[1..], b[1..]);
      assert a == [a[0]] + a[1..] && b == [b[0]] + b[1..];
    }
  }

  lemma FirstTwoWords(x: seq<string>, rest: seq<string>, y: seq<string>, rest': seq<string>)
    requires |x| == 2 && |y| == 2 && x + rest == y + rest'
    ensures x == y && rest == rest'
  {
    assert (x + rest)[..2] == x && (y + rest')[..2] == y;
    assert (x + rest)[2..] == rest && (y + rest')[2..] == rest';
  }

  lemma PairIsItsWords(text: string)
    requires IsPair(text)
    ensures |Words(text)| == 2 && text == Words(text)[0] + " " + Words(text)[1]
  {
    var a, b :| IsToken(a) && IsToken(b) && text == a + " " + b;
    PairWords(a, b, "");
    assert a + " " + b + "" == text;
    NoWords();
  }

  lemma {:induction false} PairTextsArePairs(tokens: seq<string>)
    requires forall t :: t in tokens ==> IsToken(t)
    ensures forall t :: t in PairTexts(tokens) ==> IsPairOrToken(t)
    ensures |tokens| % 2 == 0 <==> forall t :: t in PairTexts(tokens) ==> IsPair(t)
    decreases |tokens|
  {
    hide IsPair, IsToken, IsPairOrToken, PairTexts;
    PairTextsAre(tokens);
    if |tokens| == 1 {
      assert tokens[0] in tokens;
      TokenStandsAlone(tokens[0]);
    } else if |tokens| > 1 {
      assert tokens[0] in tokens && tokens[1] in tokens && forall t :: t in tokens[2..] ==> t in tokens;
      PairTextsArePairs(tokens[2..]);
      PairOfTokens(tokens[0], tokens[1]);
      FirstIsPair(tokens[0] + " " + tokens[1], PairTexts(tokens[2..]));
    }
  }

  lemma PairTextsAre(tokens: seq<string>)
    ensures PairTexts(tokens) == if |tokens| < 2 then tokens else [tokens[0] + " " + tokens[1]] + PairTexts(tokens[2..])
  {
  }

  lemma TokenStandsAlone(token: string)
    requires IsToken(token)
    ensures token in [token] && IsPairOrToken(token) && !IsPair(token)
  {
    TokenIsNotPair(token);
  }

  lemma PairOfTokens(a: string, b: string)
    requires IsToken(a) && IsToken(b)
    ensures IsPair(a + " " + b)
  {
  }

  lemma FirstIsPair(text: string, texts: seq<string>)
    requires IsPair(text)
    ensures (forall t :: t in texts ==> IsPairOrToken(t)) ==> forall t :: t in [text] + texts ==> IsPairOrToken(t)
    ensures (forall t :: t in texts ==> IsPair(t)) <==> forall t :: t in [text] + texts ==> IsPair(t)
  {
    assert IsPairOrToken(text);
    hide IsPair, IsPairOrToken;
    InCons(text, texts);
  }

  lemma InCons(x: string, s: seq<string>)
    ensures forall t :: t in [x] + s <==> t == x || t in s
  {
  }

  lemma {:induction false} FlatOfPairTexts(tokens: seq<string>)
    requires forall t :: t in tokens ==> IsToken(t)
    ensures Flat(PairTexts(tokens)) == tokens
    decreases |tokens|
  {
    hide Words;
    if |tokens| == 1 {
      assert tokens[0] in tokens;
      TokenWord(tokens[0]);
      assert [tokens[0]][1..] == [] && Flat([]) == [];
    } else if |tokens| > 1 {
      assert tokens[0] in tokens && tokens[1] in tokens;
      PairWords(tokens[0], tokens[1], "");
      NoWords();
      assert tokens[0] + " " + tokens[1] + "" == tokens[0] + " " + tokens[1];
      FlatOfPairTexts(tokens[2..]);
      assert PairTexts(tokens)[1..] == PairTexts(tokens[2..]);
      assert tokens == [tokens[0], tokens[1]] + tokens[2..];
    }
  }

  lemma TokenWord(t: string)
    requires IsToken(t)
    ensures Words(t) == [t]
  {
    WordsCons(t, "");
    assert t + "" == t;
  }

  /** Sorting keeps the number of tokens. */
  lemma {:induction false} InsertFlat(x: string, s: seq<string>)
    ensures |Flat(Insert(x, s))| == |Words(x)| + |Flat(s)|
  {
    hide Words;
    if s == [] || Leq(x, s[0]) {
      assert ([x] + s)[1..] == s;
    } else {
      InsertFlat(x, s[1..]);
      assert ([s[0]] + Insert(x, s[1..]))[1..] == Insert(x, s[1..]);
    }
  }

  lemma {:induction false} SortFlat(s: seq<string>)
    ensures |Flat(Sort(s))| == |Flat(s)|
  {
    hide Words;
    if s != [] {
      SortFlat(s[1..]);
      InsertFlat(s[0], Sort(s[1..]));
    }
  }

  predicate EvenTokens(rule: string) {
    |Words(Clean(rule))| % 2 == 0
  }

  /** What the sorted pairs of a rule look like, and that the normal form has as many tokens as the rule. */
  lemma NormalForm(rule: string)
    ensures Words(NormalizeRule(rule)) == Flat(Sort(Pairs(rule)))
    ensures |Words(NormalizeRule(rule))| == |Words(Clean(rule))|
    ensures EvenTokens(rule) ==> forall t :: t in Sort(Pairs(rule)) ==> IsPair(t)
  {
    var tokens := Words(Clean(rule));
    assert forall t :: t in tokens ==> IsToken(t);
    hide Words, Clean, IsPair, IsPairOrToken, IsToken;
    PairTextsArePairs(tokens);
    FlatOfPairTexts(tokens);
    SortSorts(Pairs(rule));
    SortFlat(Pairs(rule));
    forall t | t in Sort(Pairs(rule)) ensures t in Pairs(rule) {
      assert t in multiset(Sort(Pairs(rule)));
    }
    JoinedWords(Sort(Pairs(rule)));
  }

  /** Main result: on rules with an even number of tokens, equal normal forms mean the same pairs, and conversely. */
  lemma NormalFormDetermines(a: string, b: string)
    requires EvenTokens(a) || EvenTokens(b)
    ensures NormalizeRule(a) == NormalizeRule(b) <==> multiset(Pairs(a)) == multiset(Pairs(b))
  {
    hide IsPair, Words, Clean;
    NormalForm(a);
    NormalForm(b);
    SortPermutation(Pairs(a), Pairs(b));
    if NormalizeRule(a) == NormalizeRule(b) {
      FlatDetermines(Sort(Pairs(a)), Sort(Pairs(b)));
    }
  }

  lemma PairTextsCons(pair: seq<string>, rest: seq<string>)
    requires |pair| == 2
    ensures PairTexts(pair + rest) == [pair[0] + " " + pair[1]] + PairTexts(rest)
  {
    assert (pair + rest)[2..] == rest;
  }

  /** A rule of two pairs and one more token. */
  function OddRule(pair: string, pair': string, token: string): string {
    Join([pair, pair', token], " ")
  }

  lemma OddPairs(a: string, b: string, c: string, d: string, e: string)
    requires IsToken(a) && IsToken(b) && IsToken(c) && IsToken(d) && IsToken(e)
    requires Clean(OddRule(a + " " + b, c + " " + d, e)) == OddRule(a + " " + b, c + " " + d, e)
    ensures Pairs(OddRule(a + " " + b, c + " " + d, e)) == [a + " " + b, c + " " + d, e]
  {
    var texts := [a + " " + b, c + " " + d, e];
    assert IsPair(a + " " + b) && IsPair(c + " " + d);
    hide Words, Clean, IsPair, IsToken, PairTexts;
    JoinedWords(texts);
    FlatThree(a, b, c, d, e);
    PairTextsCons([c, d], [e]);
    PairTextsCons([a, b], [c, d] + [e]);
    OneToken(e);
    assert [a, b] + ([c, d] + [e]) == [a, b, c, d, e];
    assert [a + " " + b] + ([c + " " + d] + [e]) == texts;
  }

  lemma OneToken(e: string)
    ensures PairTexts([e]) == [e]
  {
  }

  lemma FlatThree(a: string, b: string, c: string, d: string, e: string)
    requires IsToken(a) && IsToken(b) && IsToken(c) && IsToken(d) && IsToken(e)
    ensures Flat([a + " " + b, c + " " + d, e]) == [a, b, c, d, e]
  {
    NoWords();
    hide Words, IsToken;
    PairWords(a, b, "");
    PairWords(c, d, "");
    TokenWord(e);
    assert a + " " + b + "" == a + " " + b && c + " " + d + "" == c + " " + d;
    var texts := [a + " " + b, c + " " + d, e];
    assert texts[1..] == [c + " " + d, e] && texts[1..][1..] == [e] && [e][1..] == [];
    assert Flat([e]) == [e] + [];
    assert Flat(texts[1..]) == [c, d] + Flat([e]);
  }

  lemma SortThree(a: string, b: string, c: string)
    requires a != "" && b != "" && c != "" && a[0] < b[0] && a[0] < c[0] && b[0] != c[0]
    ensures Sort([a, b, c]) == if b[0] < c[0] then [a, b, c] else [a, c, b]
  {
    SortTwo(b, c);
    assert Leq(a, b) && Leq(a, c);
    hide Leq;
    assert [a, b, c][1..] == [b, c];
    assert Insert(a, [b, c]) == [a, b, c] && Insert(a, [c, b]) == [a, c, b];
  }

  /**
   With an odd number of tokens the normal form confuses rules with different pairs, also rule lines. The comparison
   with rendered rules never meets this: those have an even number of tokens.
   */
  lemma OddTokensConfuse(chain: string, c: string, d: string, e: string)
    requires IsToken(chain) && IsToken(c) && IsToken(d) && IsToken(e) && '-' < c[0] < d[0] < e[0]
    requires var r, r' := OddRule("-A " + chain, c + " " + d, e), OddRule("-A " + chain, d + " " + e, c); Clean(r) == r && Clean(r') == r'
    ensures var r, r' := OddRule("-A " + chain, c + " " + d, e), OddRule("-A " + chain, d + " " + e, c);
            NormalizeRule(r) == NormalizeRule(r') && multiset(Pairs(r)) != multiset(Pairs(r'))
  {
    var ab, cd, de := "-A " + chain, c + " " + d, d + " " + e;
    assert ab == "-A" + " " + chain && IsToken("-A");
    assert c != "" && d != "" && e != "" && ab[0] == '-';
    hide Sort, Join, Pairs, IsToken, OddRule, Clean;
    OddPairs("-A", chain, c, d, e);
    OddPairs("-A", chain, d, e, c);
    OddFacts(ab, c, d, e);
  }

  lemma OddFacts(ab: string, c: string, d: string, e: string)
    requires ab != "" && c != "" && d != "" && e != "" && ab[0] == '-' < c[0] < d[0] < e[0]
    ensures Join(Sort([ab, c + " " + d, e]), " ") == Join(Sort([ab, d + " " + e, c]), " ")
    ensures multiset([ab, c + " " + d, e]) != multiset([ab, d + " " + e, c])
  {
    var cd, de := c + " " + d, d + " " + e;
    hide Sort, Join;
    SortThree(ab, cd, e);
    SortThree(ab, de, c);
    JoinThree(ab, cd, e);
    JoinThree(ab, c, de);
    Reassociated(ab, c, d, e);
    assert e in multiset([ab, cd, e]) && e !in [ab, de, c] by {
      assert |de| > |e|;
    }
  }

  lemma Reassociated(a: string, b: string, c: string, d: string)
    ensures a + " " + ((b + " " + c) + " " + d) == a + " " + (b + " " + (c + " " + d))
  {
  }

  lemma JoinThree(a: string, b: string, c: string)
    ensures Join([a, b, c], " ") == a + " " + (b + " " + c)
  {
    assert [a, b, c][1..] == [b, c];
    JoinTwo(b, c);
  }

  lemma SortTwo(a: string, b: string)
    requires a != "" && b != "" && a[0] != b[0]
    ensures Sort([a, b]) == if a[0] < b[0] then [a, b] else [b, a]
  {
    assert [a, b][1..] == [b] && [b][1..] == [];
    assert Sort([b]) == [b];
    assert Leq(a, b) <==> a[0] < b[0];
    hide Leq;
    assert Insert(a, []) == [a];
    assert Insert(a, [b]) == if a[0] < b[0] then [a, b] else [b, a];
    assert Sort([a, b]) == Insert(a, [b]);
  }

  lemma JoinTwo(a: string, b: string)
    ensures Join([a, b], " ") == a + " " + b
  {
    assert [a, b][1..] == [b];
  }
}
