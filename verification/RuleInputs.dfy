/**
 What firewall rules are made of: which texts are addresses, which names and ports are refused.
 */
module RuleInputs {
  import opened Wrappers
  import opened Text
  import opened Firewall

  // ---------- Addresses ----------

  lemma {:induction false} JoinSplit(s: string, c: char)
    ensures Join(SplitOn(s, c), [c]) == s
    decreases |s|
  {
    if c in s {
      var i := IndexOf(s, c);
      var front, rest := s[..i], s[i + 1..];
      JoinSplit(rest, c);
      assert s == front + [c] + rest;
      assert SplitOn(s, c) == [front] + SplitOn(rest, c);
      hide SplitOn;
      JoinFront(front, SplitOn(rest, c), c);
    }
  }

  lemma JoinFront(front: string, parts: seq<string>, c: char)
    requires parts != []
    ensures Join([front] + parts, [c]) == front + [c] + Join(parts, [c])
  {
    assert ([front] + parts)[1..] == parts;
  }

  lemma DigitChar(n: nat)
    requires n < 10
    ensures Digits(n, 10) == [('0' as int + n) as char] && DigitValue(('0' as int + n) as char, 10) == Some(n)
  {
    DigitsAre(n, 10);
    assert DIGITS[..10] == "0123456789" && DIGITS[n] == DIGITS[..10][n];
  }

  /** A digit is the text of its value. */
  lemma OneDigit(c: char)
    requires '0' <= c <= '9'
    ensures var n := c as int - '0' as int; DigitValue(c, 10) == Some(n) && Digits(n, 10) == [c]
  {
    DigitChar(c as int - '0' as int);
  }

  lemma Shifted(front: nat, n: nat)
    requires n < 10
    ensures (front * 10 + n) / 10 == front && (front * 10 + n) % 10 == n && n % 10 == n && n / 10 == 0
  {
  }

  lemma LastDigit(front: nat, c: char)
    requires '0' <= c <= '9' && front > 0
    ensures Digits(front * 10 + (c as int - '0' as int), 10) == Digits(front, 10) + [c]
  {
    var n := c as int - '0' as int;
    OneDigit(c);
    Shifted(front, n);
    DigitsAre(front * 10 + n, 10);
    DigitsAre(n, 10);
    hide Digits, DIGITS, DigitValue;
    assert ("" + [DIGITS[n]])[0] == [c][0];
  }

  lemma NoDigits()
    ensures Value("", 10) == Some(0)
  {
  }

  lemma NextValue(s: string)
    requires s != "" && '0' <= s[|s| - 1] <= '9' && Value(s[..|s| - 1], 10).Some?
    ensures Value(s, 10) == Some(Value(s[..|s| - 1], 10).value * 10 + (s[|s| - 1] as int - '0' as int))
  {
    hide *;
    OneDigit(s[|s| - 1]);
    ValueSteps(s, 10, s[|s| - 1] as int - '0' as int);
  }

  /** Digits without a leading zero are the text of their value. */
  lemma {:induction false} TextOfValue(s: string)
    requires s != "" && (forall c :: c in s ==> '0' <= c <= '9') && (|s| == 1 || s[0] != '0')
    ensures Value(s, 10).Some? && Digits(Value(s, 10).value, 10) == s && (s[0] != '0' ==> Value(s, 10).value > 0)
  {
    hide *;
    var front, c := s[..|s| - 1], s[|s| - 1];
    assert c in s && s == front + [c];
    if |s| == 1 {
      assert front == "" && s == [c];
      NoDigits();
      NextValue(s);
      OneDigit(c);
    } else {
      assert front[0] == s[0] && forall d :: d in front ==> d in s;
      TextOfValue(front);
      NextValue(s);
      LastDigit(Value(front, 10).value, c);
    }
  }

  lemma OctetExactly(s: string, n: Octet)
    ensures ParseOctet(s) == Some(n) <==> s == Digits(n, 10)
  {
    OctetRoundTrip(n);
    if ParseOctet(s) == Some(n) {
      TextOfValue(s);
    }
  }

  /** Main result: a text is read as an address exactly when it is that address as it is printed. */
  lemma AddressExactly(s: string, ip: Ipv4)
    ensures ParseIp(s) == Some(ip) <==> s == IpText(ip)
    ensures IpText(ip) == Digits(ip.a, 10) + "." + (Digits(ip.b, 10) + "." + (Digits(ip.c, 10) + "." + Digits(ip.d, 10)))
  {
    IpRoundTrip(ip);
    FourJoined(Digits(ip.a, 10), Digits(ip.b, 10), Digits(ip.c, 10), Digits(ip.d, 10));
    hide Digits, ParseOctet, SplitOn, Join;
    if ParseIp(s) == Some(ip) {
      var parts := SplitOn(s, '.');
      OctetExactly(parts[0], ip.a);
      OctetExactly(parts[1], ip.b);
      OctetExactly(parts[2], ip.c);
      OctetExactly(parts[3], ip.d);
      assert parts == OctetTexts(ip);
      JoinSplit(s, '.');
    }
  }

  lemma FourJoined(a: string, b: string, c: string, d: string)
    ensures Join([a, b, c, d], ['.']) == a + "." + (b + "." + (c + "." + d))
  {
    assert [a, b, c, d][1..] == [b, c, d] && [b, c, d][1..] == [c, d] && [c, d][1..] == [d];
    assert Join([c, d], ['.']) == c + ['.'] + Join([d], ['.']);
    assert Join([b, c, d], ['.']) == b + ['.'] + Join([c, d], ['.']);
  }

  // ---------- Names and ports ----------

  /** Letters and digits of ASCII, the underscore and the dash. */
  predicate Plain(c: char) {
    || 'a' <= LowerChar(c) <= 'z' || DigitValue(c, 10).Some? || c in "_-"
  }

  /**
   Main result: rules are rendered exactly for interface names of one to fifteen plain characters, an RTSP port that is not
   privileged, and, with RTCP, validated addresses, an unprivileged port here and a port there.
   */
  lemma RenderedExactly(rules: Rules)
    ensures RuleLines(rules).Success?
       <==> && 0 < |rules.interface.name| < 16 && (forall c :: c in rules.interface.name ==> Plain(c))
            && rules.rtsp > 1023
            && (rules.rtcp.Some? ==> && rules.local.Some? && rules.peer.Some?
                                     && rules.rtcp.value.0 > 1023 && rules.rtcp.value.1 > 0)
  {
    NameExactly(rules.interface.name);
    hide Options, LineTexts, Plain, NameChar;
  }

  lemma NameExactly(name: string)
    ensures ValidName(name) <==> 0 < |name| < 16 && forall c :: c in name ==> Plain(c)
  {
    forall c: char ensures NameChar(c) <==> Plain(c) {
    }
    hide NameChar, Plain;
  }
}
