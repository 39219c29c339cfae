/**
 The markers of an installation: when removing is refused, and that the installed lines serve the service's own chain.
 */
module UfwMarkers {
  import opened Wrappers
  import opened Text
  import opened UfwHooks
  import Firewall

  // ---------- When markers are accepted ----------

  /** Two occurrences of a marker do not overlap. */
  lemma MarkersApart(s: string, m: string, i: nat, j: nat)
    requires IsMarker(m) && At(s, m, i) && At(s, m, j) && i < j
    ensures i + |m| <= j
  {
    AtChars(s, m, j, 0);
    if j < i + |m| {
      AtChars(s, m, i, j - i);
      assert false;
    }
  }

  lemma TwiceCounts(s: string, m: string, i: nat, j: nat)
    requires IsMarker(m) && Find(s, m) == Some(i) && At(s, m, j) && i < j
    ensures Count(s, m) >= 2
  {
    MarkersApart(s, m, i, j);
    CountNext(s, m, i);
    hide IsMarker, Count;
    var front, rest := s[..i + |m|], s[i + |m|..];
    assert s == front + rest;
    AtSuffix(front, rest, m, j);
    CountNone(rest, m);
  }

  /** A marker that occurs once occurs nowhere else. */
  lemma OnceIsOnly(s: string, m: string, j: nat)
    requires IsMarker(m) && Count(s, m) == 1 && At(s, m, j)
    ensures Find(s, m) == Some(j)
  {
    var i := Find(s, m).value;
    if i < j {
      TwiceCounts(s, m, i, j);
      assert false;
    }
  }

  /** Each marker once, the end behind the beginning. */
  predicate Paired(text: string, begin: string, end: string)
    requires begin != "" && end != ""
  {
    && Count(text, begin) == 1 && Count(text, end) == 1
    && Contains(text, begin) && Contains(text, end) && Find(text, begin).value <= Find(text, end).value
  }

  lemma PairRemoved(text: string, begin: string, end: string)
    requires IsMarker(begin) && IsMarker(end) && Paired(text, begin, end)
    ensures Find(text, end).value + |end| <= |text|
    ensures RemoveBlock(text, begin, end) == Success(text[..Find(text, begin).value] + text[Find(text, end).value + |end|..])
  {
    EndAfter(text, end, Find(text, begin).value);
    hide Count, FindFrom, Find, IsMarker, At;
  }

  lemma OthersRefused(text: string, begin: string, end: string)
    requires IsMarker(begin) && IsMarker(end) && !Paired(text, begin, end) && (Contains(text, begin) || Contains(text, end))
    ensures RemoveBlock(text, begin, end).Failure?
  {
    assert begin != "" && end != "";
    CountNone(text, end);
    if Contains(text, begin) && Count(text, end) == 1 {
      EndAfter(text, end, Find(text, begin).value);
    }
    hide Count, FindFrom, Find, IsMarker, At;
  }

  /**
   Main result: removing succeeds exactly when the text has neither marker, or each of them once with the end behind the
   beginning; then exactly what is between and with them goes. Everything else is refused.
   */
  lemma RemoveExactly(text: string, begin: string, end: string)
    requires IsMarker(begin) && IsMarker(end)
    ensures RemoveBlock(text, begin, end).Success? <==> Paired(text, begin, end) || (!Contains(text, begin) && !Contains(text, end))
    ensures !Contains(text, begin) && !Contains(text, end) ==> RemoveBlock(text, begin, end) == Success(text)
    ensures Paired(text, begin, end) ==>
              && Find(text, end).value + |end| <= |text|
              && RemoveBlock(text, begin, end) == Success(text[..Find(text, begin).value] + text[Find(text, end).value + |end|..])
  {
    assert begin != "" && end != "";
    hide IsMarker, Count, FindFrom, Find;
    if Paired(text, begin, end) {
      PairRemoved(text, begin, end);
    } else if Contains(text, begin) || Contains(text, end) {
      OthersRefused(text, begin, end);
    } else {
      assert RemoveBlock(text, begin, end) == Success(text);
    }
  }

  /** An end that occurs once is found behind the beginning, or not at all. */
  lemma EndAfter(text: string, end: string, first: nat)
    requires IsMarker(end) && Count(text, end) == 1
    ensures end != "" && Find(text, end).Some? && Find(text, end).value + |end| <= |text|
    ensures FindFrom(text, end, first) == if first <= Find(text, end).value then Find(text, end) else None
  {
    CountNone(text, end);
    hide Count, IsMarker;
    var last := Find(text, end).value;
    match FindFrom(text, end, first)
    case Some(k) => OnceIsOnly(text, end, k);
    case None => assert last < first;
  }

  // ---------- The chain ----------

  /** Main result: what is installed declares, flushes and jumps to the chain that the service fills. */
  lemma ServesTheChain()
    ensures DECL == "# BEGIN WAYCAST CHAIN\n" + (":" + Firewall.CHAIN + " - [0:0]\n" + "# END WAYCAST CHAIN\n")
    ensures HOOK == "# BEGIN WAYCAST HOOK\n"
                    + ("-F " + Firewall.CHAIN + "\n" + ("-A ufw-before-input -j " + Firewall.CHAIN + "\n") + "# END WAYCAST HOOK\n")
  {
    ChainTexts();
    hide *;
    Markers();
  }

  lemma ChainTexts()
    ensures CHAIN_LINE == ":" + Firewall.CHAIN + " - [0:0]\n"
    ensures HOOK_LINES == "-F " + Firewall.CHAIN + "\n" + ("-A ufw-before-input -j " + Firewall.CHAIN + "\n")
  {
  }

  lemma Markers()
    ensures DECL == "# BEGIN WAYCAST CHAIN\n" + (CHAIN_LINE + "# END WAYCAST CHAIN\n")
    ensures HOOK == "# BEGIN WAYCAST HOOK\n" + (HOOK_LINES + "# END WAYCAST HOOK\n")
  {
    hide CHAIN_LINE, HOOK_LINES;
  }
}
