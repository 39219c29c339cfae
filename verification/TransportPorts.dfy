/**
 What a Transport header offers: the sink's RTP port, and the RTCP port that is authorized for it.
 */
module TransportPorts {
  import opened Wrappers
  import opened Text
  import opened RtspMessages
  import opened RtspSessions

  predicate Blank(s: string) {
    forall c :: c in s ==> IsSpace(c)
  }

  lemma {:induction false} TrimFront(pad: string, x: string)
    requires Blank(pad) && x != "" && !IsSpace(x[0])
    ensures TrimStart(pad + x) == x
  {
    if pad == "" {
      assert pad + x == x;
    } else {
      assert pad[0] in pad && (pad + x)[0] == pad[0] && (pad + x)[1..] == pad[1..] + x;
      TrimFront(pad[1..], x);
    }
  }

  lemma {:induction false} TrimBack(x: string, pad: string)
    requires Blank(pad) && x != "" && !IsSpace(x[|x| - 1])
    ensures TrimEnd(x + pad) == x
  {
    if pad == "" {
      assert x + pad == x;
    } else {
      var last := pad[|pad| - 1];
      assert last in pad && (x + pad)[|x + pad| - 1] == last && (x + pad)[..|x + pad| - 1] == x + pad[..|pad| - 1];
      TrimBack(x, pad[..|pad| - 1]);
    }
  }

  lemma TrimPads(pad: string, x: string, pad': string)
    requires Blank(pad) && Blank(pad') && x != "" && !IsSpace(x[0]) && !IsSpace(x[|x| - 1])
    ensures Trim(pad + (x + pad')) == x
  {
    hide TrimStart, TrimEnd, IsSpace;
    assert (x + pad')[0] == x[0];
    TrimFront(pad, x + pad');
    TrimBack(x, pad');
  }

  /** A field that offers no ports, not even behind white space. */
  predicate Other(field: string) {
    ';' !in field && !(CLIENT_PORT <= field) && !(CLIENT_PORT <= Trim(field))
  }

  /** A range as it is printed, and the field that carries it. */
  function Range(p: nat, q: nat): string {
    Digits(p, 10) + "-" + Digits(q, 10)
  }

  function Field(pad: string, range: string, pad': string): string {
    pad + ((CLIENT_PORT + range) + pad')
  }

  function Header(before: seq<string>, field: string, after: seq<string>): string {
    Join(before + ([field] + after), ";")
  }

  lemma {:induction false} RangeFound(before: seq<string>, field: string, after: seq<string>)
    requires (forall f :: f in before ==> Other(f)) && CLIENT_PORT <= Trim(field)
    ensures TrimmedPortRange(before + ([field] + after)) == Some(Trim(field)[12..])
  {
    hide Trim;
    if before == [] {
      assert before + ([field] + after) == [field] + after;
    } else {
      assert before[0] in before && (before + ([field] + after))[1..] == before[1..] + ([field] + after);
      RangeFound(before[1..], field, after);
    }
  }

  lemma {:induction false} FirstRange(before: seq<string>, field: string, after: seq<string>)
    requires (forall f :: f in before + after ==> Other(f))
    ensures ClientPortRange(before + ([field] + after)) == if CLIENT_PORT <= field then Some(field[12..]) else None
  {
    hide Trim;
    if before == [] {
      assert before + ([field] + after) == [field] + after && before + after == after;
      assert ([field] + after)[1..] == after;
      NoRange(after);
    } else {
      assert before[0] in before + after && (before + ([field] + after))[1..] == before[1..] + ([field] + after);
      assert forall f :: f in before[1..] + after ==> f in before + after;
      FirstRange(before[1..], field, after);
    }
  }

  lemma {:induction false} NoRange(fields: seq<string>)
    requires forall f :: f in fields ==> Other(f)
    ensures ClientPortRange(fields) == None
  {
    hide Trim;
    if fields != [] {
      assert fields[0] in fields && forall f :: f in fields[1..] ==> f in fields;
      NoRange(fields[1..]);
    }
  }

  /** The pieces of a field, and what trimming leaves of it. */
  lemma FieldFacts(pad: string, range: string, pad': string)
    requires Blank(pad) && Blank(pad') && range != "" && forall c :: c in range ==> '0' <= c <= '9' || c == '-'
    ensures ';' !in Field(pad, range, pad')
    ensures Trim(Field(pad, range, pad')) == CLIENT_PORT + range
    ensures CLIENT_PORT <= Field(pad, range, pad') <==> pad == ""
    ensures pad == "" ==> Field(pad, range, pad')[12..] == range + pad'
  {
    var x := CLIENT_PORT + range;
    assert range[|range| - 1] in range && x[|x| - 1] == range[|range| - 1] && x[0] == 'c';
    KeyPlain();
    SpacesPlain(pad);
    SpacesPlain(pad');
    TrimPads(pad, x, pad');
    hide Trim;
    if pad == "" {
      assert Field(pad, range, pad') == CLIENT_PORT + (range + pad');
    } else {
      assert pad[0] in pad && Field(pad, range, pad')[0] == pad[0];
    }
  }

  lemma KeyPlain()
    ensures ';' !in CLIENT_PORT && |CLIENT_PORT| == 12 && CLIENT_PORT[0] == 'c'
  {
  }

  lemma SpacesPlain(pad: string)
    requires Blank(pad)
    ensures ';' !in pad && 'c' !in pad
  {
  }

  lemma HeaderSplits(before: seq<string>, field: string, after: seq<string>)
    requires (forall f :: f in before + after ==> Other(f)) && ';' !in field
    ensures SplitOn(Header(before, field, after), ';') == before + ([field] + after)
  {
    hide Trim, SplitOn;
    forall f | f in before + ([field] + after) ensures ';' !in f {
      assert f == field || f in before + after;
    }
    SplitJoin(before + ([field] + after), ';');
  }

  lemma RangePieces(p: nat, q: nat)
    ensures Range(p, q) != "" && forall c :: c in Range(p, q) ==> '0' <= c <= '9' || c == '-'
    ensures '-' in Range(p, q) && IndexOf(Range(p, q), '-') == |Digits(p, 10)|
    ensures Range(p, q)[|Digits(p, 10)| + 1..] == Digits(q, 10)
  {
    var a, b := Digits(p, 10), Digits(q, 10);
    hide Digits;
    assert Range(p, q) == a + ['-'] + b;
    IndexOfIs(a, '-', b);
  }

  lemma FirstPort(p: nat, rest: string)
    requires rest == "" || rest[0] == '-'
    ensures SplitOn(Digits(p, 10) + rest, '-')[0] == Digits(p, 10)
  {
    var a := Digits(p, 10);
    hide Digits;
    if rest == "" {
      assert a + rest == a;
    } else {
      assert a + rest == a + ['-'] + rest[1..];
      SplitOnCons(a, '-', rest[1..]);
    }
  }

  lemma PortReads(p: nat)
    ensures ParseUnsigned(Digits(p, 10), 10, MAX_U16) == if p <= MAX_U16 then Some(p) else None
  {
    ValueOfDigits(p, 10);
    hide Value;
    assert Digits(p, 10)[0] in Digits(p, 10);
  }

  /**
   Main result: of a printed range the port behind the dash is authorized for RTCP, exactly when it is a 16-bit port other
   than zero. The port before it becomes the RTP destination only when no white space stands before the field.
   */
  lemma RangeOffered(before: seq<string>, pad: string, p: nat, q: nat, pad': string, after: seq<string>)
    requires Blank(pad) && Blank(pad') && forall f :: f in before + after ==> Other(f)
    ensures var transport := Some(Header(before, Field(pad, Range(p, q), pad'), after));
            && OfferedRtcp(transport) == (if 0 < q <= 65535 then Some(q) else None)
            && OfferedPorts(transport) == if pad == "" && p <= 65535 then Some((Range(p, q) + pad', p)) else None
  {
    var range := Range(p, q);
    var field := Field(pad, range, pad');
    RangePieces(p, q);
    FieldFacts(pad, range, pad');
    RangeStart(p, q, pad');
    PortReads(p);
    PortReads(q);
    hide Trim, SplitOn, Digits, Field, Range, Header, ParseUnsigned, Other;
    HeaderSplits(before, field, after);
    forall f | f in before ensures Other(f) {
      assert f in before + after;
    }
    KeyFits(range);
    RangeFound(before, field, after);
    FirstRange(before, field, after);
  }

  lemma RangeStart(p: nat, q: nat, pad: string)
    ensures SplitOn(Range(p, q) + pad, '-')[0] == Digits(p, 10)
  {
    hide Digits, SplitOn;
    assert Range(p, q) + pad == Digits(p, 10) + ("-" + (Digits(q, 10) + pad));
    FirstPort(p, "-" + (Digits(q, 10) + pad));
  }

  lemma KeyFits(range: string)
    ensures CLIENT_PORT <= CLIENT_PORT + range && (CLIENT_PORT + range)[12..] == range
  {
  }

  /** A single port offers no RTCP port. */
  lemma SinglePortOffered(before: seq<string>, pad: string, p: nat, after: seq<string>)
    requires Blank(pad) && forall f :: f in before + after ==> Other(f)
    ensures var transport := Some(Header(before, Field(pad, Digits(p, 10), ""), after));
            && OfferedRtcp(transport) == None
            && OfferedPorts(transport) == if pad == "" && p <= 65535 then Some((Digits(p, 10), p)) else None
  {
    var range := Digits(p, 10);
    var field := Field(pad, range, "");
    assert '-' !in range;
    FieldFacts(pad, range, "");
    assert range + "" == range;
    FirstPort(p, "");
    PortReads(p);
    hide Trim, SplitOn, Digits, Field, Header, ParseUnsigned, Other;
    HeaderSplits(before, field, after);
    forall f | f in before ensures Other(f) {
      assert f in before + after;
    }
    KeyFits(range);
    RangeFound(before, field, after);
    FirstRange(before, field, after);
  }

  /** Without a port field nothing is offered. */
  lemma NothingOffered(fields: seq<string>)
    requires fields != [] && forall f :: f in fields ==> Other(f)
    ensures OfferedRtcp(Some(Join(fields, ";"))) == None && OfferedPorts(Some(Join(fields, ";"))) == None
  {
    hide Trim, SplitOn, Join;
    SplitJoin(fields, ';');
    NoRange(fields);
    NoTrimmedRange(fields);
  }

  lemma {:induction false} NoTrimmedRange(fields: seq<string>)
    requires forall f :: f in fields ==> Other(f)
    ensures TrimmedPortRange(fields) == None
  {
    hide Trim;
    if fields != [] {
      assert fields[0] in fields && forall f :: f in fields[1..] ==> f in fields;
      NoTrimmedRange(fields[1..]);
    }
  }
}
