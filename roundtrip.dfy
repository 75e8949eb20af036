/** JSON.parse gives back what JSON.stringify wrote: decoding any
    serialisation of a value, compact or indented, with or without `<` and `>`
    quoted as `\u` escapes, yields the value itself. */
module JsonRoundTrip {
  import opened JsonValues
  import opened JsonStringify
  import opened JsonParse

  // ---------------------------------------------------------------------
  // Whitespace.

  lemma {:induction false} SkipWsLead(lead: string, x: string)
    requires AllWs(lead)
    ensures SkipWs(lead + x) == SkipWs(x)
  {
    if lead == [] {
      assert lead + x == x;
    } else {
      assert (lead + x)[0] == lead[0];
      assert (lead + x)[1..] == lead[1..] + x;
      SkipWsLead(lead[1..], x);
    }
  }

  lemma Regroup(a: string, b: string, c: string, d: string, e: string)
    ensures a + b + c + d + e == a + (b + c + d + e)
  {
  }

  lemma Regroup4(a: string, b: string, c: string, d: string)
    ensures a + b + c + d == a + (b + c + d)
  {
  }

  /** The text after an entry that has more entries after it. */
  lemma EntryText(lead: string, a: string, sep: string, more: string, ws: string, close: char, rest: string)
    requires |sep| > 0 && sep[0] == ','
    ensures var remaining := more + ws + [close] + rest;
            && lead + (a + sep + more) + ws + [close] + rest == lead + a + (sep + remaining)
            && (sep + remaining)[0] == ','
            && sep[1..] + more + ws + [close] + rest == sep[1..] + remaining
  {
  }

  /** The text after the last entry of an array or object. */
  lemma LastText(lead: string, a: string, ws: string, close: char, rest: string)
    requires AllWs(ws) && !IsDigit(close)
    ensures var tail := ws + [close] + rest;
            && lead + a + ws + [close] + rest == lead + a + tail
            && tail != [] && !IsDigit(tail[0])
  {
    var tail := ws + [close] + rest;
    assert tail[0] == if ws == [] then close else ws[0];
  }

  lemma SpacesAreWs(s: string)
    requires AllSpaces(s)
    ensures AllWs(s) && NoAngles(s)
  {
  }

  // ---------------------------------------------------------------------
  // Numbers.

  lemma {:induction false} NatToStringShape(n: nat)
    ensures |NatToString(n)| > 0
    ensures forall i :: 0 <= i < |NatToString(n)| ==> IsDigit(NatToString(n)[i])
    ensures |NatToString(n)| > 1 ==> NatToString(n)[0] != '0'
    ensures DigitsValue(NatToString(n)) == n
  {
    if n >= 10 {
      NatToStringShape(n / 10);
      var s := NatToString(n);
      assert s[..|s| - 1] == NatToString(n / 10);
      assert s[0] == NatToString(n / 10)[0];
    }
  }

  lemma {:induction false} DigitRunAppend(ds: string, rest: string)
    requires forall i :: 0 <= i < |ds| ==> IsDigit(ds[i])
    requires rest == [] || !IsDigit(rest[0])
    ensures DigitRun(ds + rest) == |ds|
  {
    if ds == [] {
      assert ds + rest == rest;
    } else {
      assert (ds + rest)[0] == ds[0];
      assert (ds + rest)[1..] == ds[1..] + rest;
      DigitRunAppend(ds[1..], rest);
    }
  }

  /** A serialised integer reads back as itself. */
  lemma NumberRoundTrip(n: int, rest: string)
    requires rest == [] || !IsDigit(rest[0])
    ensures ParseNumber(IntToString(n) + rest) == Some((n, rest))
  {
    var m: nat := if n < 0 then -n else n;
    var ds := NatToString(m);
    NatToStringShape(m);
    DigitsThenRest(ds, rest);
    if n < 0 {
      assert IntToString(n) == "-" + ds;
      MinusThenDigits(ds, rest, m);
    } else {
      assert IntToString(n) == ds;
      DigitsFirst(ds, rest, m);
    }
  }

  lemma MinusThenDigits(ds: string, rest: string, m: nat)
    requires ParseDigits(ds + rest) == Some((m, rest))
    ensures ParseNumber("-" + ds + rest) == Some((-(m as int), rest))
  {
    var s := "-" + ds + rest;
    assert s[0] == '-';
    assert s[1..] == ds + rest;
  }

  lemma DigitsFirst(ds: string, rest: string, m: nat)
    requires ds != [] && IsDigit(ds[0])
    requires ParseDigits(ds + rest) == Some((m, rest))
    ensures ParseNumber(ds + rest) == Some((m as int, rest))
  {
    assert (ds + rest)[0] == ds[0];
  }

  /** Digits without a leading zero, then text that does not continue them:
      ParseDigits reads exactly the digits. */
  lemma DigitsThenRest(ds: string, rest: string)
    requires ds != [] && forall i :: 0 <= i < |ds| ==> IsDigit(ds[i])
    requires |ds| > 1 ==> ds[0] != '0'
    requires rest == [] || !IsDigit(rest[0])
    ensures ParseDigits(ds + rest) == Some((DigitsValue(ds), rest))
  {
    var t := ds + rest;
    DigitRunAppend(ds, rest);
    assert t[..|ds|] == ds && t[|ds|..] == rest;
    assert t[0] == ds[0];
  }

  // ---------------------------------------------------------------------
  // Strings.

  lemma HexDigitValue(d: int)
    requires 0 <= d < 16
    ensures HexValue(HexDigit(d)) == Some(d)
  {
  }

  lemma UnicodeEscapeValue(n: int, t: string)
    requires 0 <= n < 0x1_0000
    ensures Hex4(UnicodeEscape(n)[2..] + t) == Some(n)
  {
    var a, b, c, d := n / 0x1000, n / 0x100 % 16, n / 0x10 % 16, n % 16;
    HexDigitValue(a);
    HexDigitValue(b);
    HexDigitValue(c);
    HexDigitValue(d);
    var s := UnicodeEscape(n)[2..] + t;
    assert s[0] == HexDigit(a) && s[1] == HexDigit(b) && s[2] == HexDigit(c) && s[3] == HexDigit(d);
    HexSplit(n);
  }

  /** The four hexadecimal digits of a 16-bit number make it up again. */
  lemma HexSplit(n: int)
    requires 0 <= n < 0x1_0000
    ensures n / 0x1000 * 0x1000 + n / 0x100 % 16 * 0x100 + n / 0x10 % 16 * 0x10 + n % 16 == n
  {
    var q1 := n / 16;
    var q2 := q1 / 16;
    var q3 := q2 / 16;
    assert n == q1 * 16 + n % 16;
    assert q1 == q2 * 16 + q1 % 16;
    assert q2 == q3 * 16 + q2 % 16;
    assert n / 0x100 == q2;
    assert n / 0x1000 == q3;
  }

  /** One quoted character reads back as itself, ahead of whatever follows. */
  lemma QuoteCharRoundTrip(c: char, htmlSafe: bool, t: string, x: string, after: string)
    requires ParseString(t) == Some((x, after))
    ensures ParseString(QuoteChar(c, htmlSafe) + t) == Some(([c] + x, after))
  {
    var q := QuoteChar(c, htmlSafe);
    if q == [c] {
      PlainCharRoundTrip(c, htmlSafe, t, x, after);
    } else if |q| == 2 {
      ShortEscapeRoundTrip(c, htmlSafe, t, x, after);
    } else {
      UnicodeEscapeRoundTrip(c, htmlSafe, t, x, after);
    }
  }

  lemma PlainCharRoundTrip(c: char, htmlSafe: bool, t: string, x: string, after: string)
    requires QuoteChar(c, htmlSafe) == [c]
    requires ParseString(t) == Some((x, after))
    ensures ParseString([c] + t) == Some(([c] + x, after))
  {
    var s := [c] + t;
    assert s[0] == c && s[1..] == t;
  }

  lemma ShortEscapeRoundTrip(c: char, htmlSafe: bool, t: string, x: string, after: string)
    requires |QuoteChar(c, htmlSafe)| == 2
    requires ParseString(t) == Some((x, after))
    ensures ParseString(QuoteChar(c, htmlSafe) + t) == Some(([c] + x, after))
  {
    var q := QuoteChar(c, htmlSafe);
    var s := q + t;
    assert s[0] == '\\' && s[1..] == [q[1]] + t;
    assert s[1..][1..] == t;
  }

  lemma UnicodeEscapeRoundTrip(c: char, htmlSafe: bool, t: string, x: string, after: string)
    requires QuoteChar(c, htmlSafe) != [c] && |QuoteChar(c, htmlSafe)| != 2
    requires ParseString(t) == Some((x, after))
    ensures ParseString(QuoteChar(c, htmlSafe) + t) == Some(([c] + x, after))
  {
    var u := UnicodeEscape(c as int);
    assert QuoteChar(c, htmlSafe) == u;
    UnicodeEscapeValue(c as int, t);
    UnicodeEscapeText(c as int, t);
    assert (c as int) as char == c;
  }

  lemma UnicodeEscapeText(n: int, t: string)
    requires 0 <= n < 0x1_0000
    ensures var s := UnicodeEscape(n) + t;
            && s != [] && s[0] == '\\' && s[1..] != [] && s[1..][0] == 'u'
            && s[1..][1..] == UnicodeEscape(n)[2..] + t && |s[1..]| >= 5 && s[1..][5..] == t
  {
    var s := UnicodeEscape(n) + t;
    assert s[1..][1..] == UnicodeEscape(n)[2..] + t;
  }

  lemma {:induction false} QuoteBodyRoundTrip(s: string, htmlSafe: bool, rest: string)
    ensures ParseString(QuoteBody(s, htmlSafe) + ['"'] + rest) == Some((s, rest))
  {
    if s == [] {
      assert QuoteBody(s, htmlSafe) + ['"'] + rest == ['"'] + rest;
    } else {
      var q, b := QuoteChar(s[0], htmlSafe), QuoteBody(s[1..], htmlSafe);
      var t := b + ['"'] + rest;
      QuoteBodyRoundTrip(s[1..], htmlSafe, rest);
      QuoteCharRoundTrip(s[0], htmlSafe, t, s[1..], rest);
      assert QuoteBody(s, htmlSafe) == q + b;
      Regroup4(q, b, ['"'], rest);
      assert [s[0]] + s[1..] == s;
    }
  }

  // ---------------------------------------------------------------------
  // Layout.

  /** What a serialisation can start with. */
  lemma SerializeStart(v: JsonValue, gap: string, indent: string, htmlSafe: bool)
    ensures var s := Serialize(v, gap, indent, htmlSafe);
            |s| > 0 && !IsWs(s[0]) && s[0] != ']' && s[0] != '}' && s[0] != ','
  {
    match v
    case Number(n) =>
      NatToStringShape(if n < 0 then -n else n);
    case _ =>
  }

  lemma SerializeElementsStart(elems: seq<JsonValue>, gap: string, indent: string, sep: string, htmlSafe: bool)
    requires elems != []
    ensures var s := SerializeElements(elems, gap, indent, sep, htmlSafe);
            |s| > 0 && !IsWs(s[0]) && s[0] != ']'
  {
    SerializeStart(elems[0], gap, indent, htmlSafe);
  }

  lemma SerializeMembersStart(members: seq<(string, JsonValue)>, gap: string, indent: string, sep: string, htmlSafe: bool)
    requires members != []
    ensures var s := SerializeMembers(members, gap, indent, sep, htmlSafe);
            |s| > 0 && s[0] == '"'
  {
    var m0 := SerializeMember(members[0], gap, indent, htmlSafe);
    assert m0[0] == '"';
    if |members| > 1 {
      assert SerializeMembers(members, gap, indent, sep, htmlSafe)[0] == m0[0];
    }
  }

  lemma BracketedShape(gap: string, indent: string)
    requires AllSpaces(gap) && AllSpaces(indent)
    ensures AllWs(Opening(gap, indent)) && AllWs(Closing(gap, indent))
  {
    var o := Opening(gap, indent);
    var c := Closing(gap, indent);
    assert forall i :: 0 <= i < |o| ==> IsWs(o[i]);
    assert forall i :: 0 <= i < |c| ==> IsWs(c[i]);
  }

  // ---------------------------------------------------------------------
  // Values.

  lemma ParseValueAfterWs(lead: string, x: string)
    requires AllWs(lead) && x != [] && !IsWs(x[0])
    ensures ParseValue(lead + x) == ParseValue(x)
  {
    SkipWsLead(lead, x);
    assert SkipWs(x) == x;
  }

  lemma KeywordRoundTrip(v: JsonValue, gap: string, indent: string, htmlSafe: bool, rest: string)
    requires v.Null? || v.Bool?
    ensures ParseValue(Serialize(v, gap, indent, htmlSafe) + rest) == Some((v, rest))
  {
    var x := Serialize(v, gap, indent, htmlSafe) + rest;
    assert SkipWs(x) == x;
    if v.Null? {
      assert x[..4] == "null" && x[4..] == rest;
    } else if v.b {
      assert x[..4] == "true" && x[4..] == rest;
    } else {
      assert x[..5] == "false" && x[5..] == rest;
    }
  }

  lemma NumberValueRoundTrip(n: int, rest: string)
    requires rest == [] || !IsDigit(rest[0])
    ensures ParseValue(IntToString(n) + rest) == Some((Number(n), rest))
  {
    var x := IntToString(n) + rest;
    NatToStringShape(if n < 0 then -n else n);
    assert x[0] == '-' || IsDigit(x[0]);
    NumberRoundTrip(n, rest);
    ParseValueAtNumber(x, n, rest);
  }

  lemma ParseValueAtNumber(x: string, n: int, rest: string)
    requires x != [] && (x[0] == '-' || IsDigit(x[0]))
    requires ParseNumber(x) == Some((n, rest))
    ensures ParseValue(x) == Some((Number(n), rest))
  {
    assert SkipWs(x) == x;
    assert x[0] != 'n' && x[0] != 't' && x[0] != 'f' && x[0] != '"' && x[0] != '[' && x[0] != '{';
  }

  lemma StringValueRoundTrip(str: string, htmlSafe: bool, rest: string)
    ensures ParseValue(Quote(str, htmlSafe) + rest) == Some((String(str), rest))
  {
    var b := QuoteBody(str, htmlSafe);
    QuotedText(b, rest);
    QuoteBodyRoundTrip(str, htmlSafe, rest);
    ParseValueAtString(['"'] + (b + ['"'] + rest), b + ['"'] + rest, str, rest);
  }

  lemma QuotedText(b: string, rest: string)
    ensures ['"'] + b + ['"'] + rest == ['"'] + (b + ['"'] + rest)
  {
  }

  lemma ParseValueAtString(x: string, u: string, str: string, rest: string)
    requires x == ['"'] + u
    requires ParseString(u) == Some((str, rest))
    ensures ParseValue(x) == Some((String(str), rest))
  {
    assert x[0] == '"' && x[1..] == u;
    assert SkipWs(x) == x;
  }

  /** Every well-formed serialisation, after any leading whitespace and
      before any text that does not continue a number, reads back as the
      value serialised. */
  lemma {:induction false} ValueRoundTrip(v: JsonValue, gap: string, indent: string, htmlSafe: bool, lead: string, rest: string)
    requires AllSpaces(gap) && AllSpaces(indent) && AllWs(lead)
    requires rest == [] || !IsDigit(rest[0])
    ensures ParseValue(lead + Serialize(v, gap, indent, htmlSafe) + rest) == Some((v, rest))
    decreases v, 3
  {
    var s := Serialize(v, gap, indent, htmlSafe);
    SerializeStart(v, gap, indent, htmlSafe);
    assert lead + s + rest == lead + (s + rest);
    ParseValueAfterWs(lead, s + rest);
    match v
    case Null => KeywordRoundTrip(v, gap, indent, htmlSafe, rest);
    case Bool(_) => KeywordRoundTrip(v, gap, indent, htmlSafe, rest);
    case Number(n) => NumberValueRoundTrip(n, rest);
    case String(str) => StringValueRoundTrip(str, htmlSafe, rest);
    case Array(elems) => ArrayValueRoundTrip(elems, gap, indent, htmlSafe, rest);
    case Object(members) => ObjectValueRoundTrip(members, gap, indent, htmlSafe, rest);
  }

  lemma {:induction false} ArrayValueRoundTrip(elems: seq<JsonValue>, gap: string, indent: string, htmlSafe: bool, rest: string)
    requires AllSpaces(gap) && AllSpaces(indent)
    ensures ParseValue(Serialize(Array(elems), gap, indent, htmlSafe) + rest) == Some((Array(elems), rest))
    decreases Array(elems), 2
  {
    var s := Serialize(Array(elems), gap, indent, htmlSafe);
    ContainerFirst(Array(elems), gap, indent, htmlSafe);
    OpensWith(s, '[', rest);
    ArrayRoundTrip(elems, gap, indent, htmlSafe, rest);
  }

  lemma {:induction false} ObjectValueRoundTrip(members: seq<(string, JsonValue)>, gap: string, indent: string, htmlSafe: bool, rest: string)
    requires AllSpaces(gap) && AllSpaces(indent)
    ensures ParseValue(Serialize(Object(members), gap, indent, htmlSafe) + rest) == Some((Object(members), rest))
    decreases Object(members), 2
  {
    var s := Serialize(Object(members), gap, indent, htmlSafe);
    ContainerFirst(Object(members), gap, indent, htmlSafe);
    OpensWith(s, '{', rest);
    ObjectRoundTrip(members, gap, indent, htmlSafe, rest);
  }

  /** A serialised array or object starts with its opening bracket. */
  lemma ContainerFirst(v: JsonValue, gap: string, indent: string, htmlSafe: bool)
    requires v.Array? || v.Object?
    ensures var s := Serialize(v, gap, indent, htmlSafe); s != [] && s[0] == if v.Array? then '[' else '{'
  {
    var inner := indent + gap;
    var sep := Separator(gap, inner);
    match v
    case Array(elems) =>
      if elems != [] {
        BracketedFirst('[', Opening(gap, indent), SerializeElements(elems, gap, inner, sep, htmlSafe), Closing(gap, indent), ']');
      }
    case Object(members) =>
      if members != [] {
        BracketedFirst('{', Opening(gap, indent), SerializeMembers(members, gap, inner, sep, htmlSafe), Closing(gap, indent), '}');
      }
  }

  lemma BracketedFirst(open: char, o: string, body: string, c: string, close: char)
    ensures var b := [open] + o + body + c + [close]; b != [] && b[0] == open
  {
    var b := [open] + o + body + c + [close];
    assert b == [open] + (o + body + c + [close]);
  }

  /** A text that starts with a bracket is not skipped as whitespace. */
  lemma OpensWith(s: string, open: char, rest: string)
    requires s != [] && s[0] == open && (open == '[' || open == '{')
    ensures var x := s + rest; x != [] && x[0] == open && SkipWs(x) == x && x[1..] == s[1..] + rest
  {
    var x := s + rest;
    assert x[0] == open;
  }

  /** The text after the opening bracket of a serialised container. */
  lemma BracketedInside(open: char, o: string, body: string, c: string, close: char, rest: string)
    ensures ([open] + o + body + c + [close])[1..] + rest == o + (body + c + [close] + rest)
  {
    assert ([open] + o + body + c + [close])[1..] == o + body + c + [close];
  }

  lemma ContainerInside(open: char, close: char, body: string, gap: string, indent: string, rest: string)
    requires AllSpaces(gap) && AllSpaces(indent)
    requires body != [] && !IsWs(body[0])
    ensures var s := Bracketed(open, close, body, gap, indent);
            && |s| > 0
            && SkipWs(s[1..] + rest) == body + Closing(gap, indent) + [close] + rest
  {
    var s := Bracketed(open, close, body, gap, indent);
    var inside := body + Closing(gap, indent) + [close] + rest;
    BracketedShape(gap, indent);
    BracketedInside(open, Opening(gap, indent), body, Closing(gap, indent), close, rest);
    SkipWsLead(Opening(gap, indent), inside);
    assert SkipWs(inside) == inside;
  }

  lemma {:induction false} ArrayRoundTrip(elems: seq<JsonValue>, gap: string, indent: string, htmlSafe: bool, rest: string)
    requires AllSpaces(gap) && AllSpaces(indent)
    ensures ParseArray(Serialize(Array(elems), gap, indent, htmlSafe)[1..] + rest) == Some((Array(elems), rest))
    decreases Array(elems), 1
  {
    var s := Serialize(Array(elems), gap, indent, htmlSafe);
    if elems == [] {
      assert s[1..] + rest == [']'] + rest;
      assert SkipWs([']'] + rest) == [']'] + rest;
    } else {
      var inner := indent + gap;
      var sep := Separator(gap, inner);
      var body := SerializeElements(elems, gap, inner, sep, htmlSafe);
      var close := Closing(gap, indent);
      SerializeElementsStart(elems, gap, inner, sep, htmlSafe);
      ContainerInside('[', ']', body, gap, indent, rest);
      assert [] + body == body;
      SpacesAreWs(indent + gap);
      ElementsRoundTrip(elems, gap, inner, sep, htmlSafe, [], close, rest);
    }
  }

  lemma {:induction false} ObjectRoundTrip(members: seq<(string, JsonValue)>, gap: string, indent: string, htmlSafe: bool, rest: string)
    requires AllSpaces(gap) && AllSpaces(indent)
    ensures ParseObject(Serialize(Object(members), gap, indent, htmlSafe)[1..] + rest) == Some((Object(members), rest))
    decreases Object(members), 1
  {
    var s := Serialize(Object(members), gap, indent, htmlSafe);
    if members == [] {
      assert s[1..] + rest == ['}'] + rest;
      assert SkipWs(['}'] + rest) == ['}'] + rest;
    } else {
      var inner := indent + gap;
      var sep := Separator(gap, inner);
      var body := SerializeMembers(members, gap, inner, sep, htmlSafe);
      var close := Closing(gap, indent);
      SerializeMembersStart(members, gap, inner, sep, htmlSafe);
      ContainerInside('{', '}', body, gap, indent, rest);
      assert [] + body == body;
      SpacesAreWs(indent + gap);
      MembersRoundTrip(members, gap, inner, sep, htmlSafe, [], close, rest);
    }
  }

  /** After an entry: whitespace then the closing bracket, or a separator. */
  lemma AfterEntry(sep: string, more: string, ws: string, close: char, rest: string)
    requires AllWs(ws) && (close == ']' || close == '}')
    requires |sep| > 0 && sep[0] == ','
    ensures SkipWs(ws + [close] + rest) == [close] + rest
    ensures var after := sep + more + ws + [close] + rest;
            SkipWs(after) == after && after[1..] == sep[1..] + more + ws + [close] + rest
  {
    assert ws + [close] + rest == ws + ([close] + rest);
    SkipWsLead(ws, [close] + rest);
    assert SkipWs([close] + rest) == [close] + rest;
    var after := sep + more + ws + [close] + rest;
    assert after[0] == ',';
    assert SkipWs(after) == after;
  }

  /** A separator is not skipped as whitespace and leaves the rest after its comma. */
  lemma SeparatorText(sep: string, more: string)
    requires |sep| > 0 && sep[0] == ','
    ensures var after := sep + more;
            after[0] == ',' && SkipWs(after) == after && after[1..] == sep[1..] + more
  {
    var after := sep + more;
    assert after[0] == ',';
  }

  /** ParseElements after an element that is followed by the closing bracket. */
  lemma ElementsLast(s: string, v: JsonValue, ws: string, rest: string)
    requires AllWs(ws)
    requires ParseValue(s) == Some((v, ws + [']'] + rest))
    ensures ParseElements(s) == Some(([v], rest))
  {
    AfterEntry([','], [], ws, ']', rest);
  }

  /** ParseElements after an element that is followed by a separator and more elements. */
  lemma ElementsNext(s: string, v: JsonValue, sep: string, more: string, vs: seq<JsonValue>, rest: string)
    requires |sep| > 0 && sep[0] == ','
    requires ParseValue(s) == Some((v, sep + more))
    requires ParseElements(sep[1..] + more) == Some((vs, rest))
    ensures ParseElements(s) == Some(([v] + vs, rest))
  {
    SeparatorText(sep, more);
  }

  lemma {:induction false} ElementsRoundTrip(elems: seq<JsonValue>, gap: string, indent: string, sep: string, htmlSafe: bool,
                                             lead: string, ws: string, rest: string)
    requires elems != []
    requires AllSpaces(gap) && AllSpaces(indent) && AllWs(lead) && AllWs(ws)
    requires |sep| > 0 && sep[0] == ',' && AllWs(sep[1..])
    ensures ParseElements(lead + SerializeElements(elems, gap, indent, sep, htmlSafe) + ws + [']'] + rest) == Some((elems, rest))
    decreases elems, 1
  {
    if |elems| == 1 {
      LastElementRoundTrip(elems, gap, indent, sep, htmlSafe, lead, ws, rest);
    } else {
      NextElementRoundTrip(elems, gap, indent, sep, htmlSafe, lead, ws, rest);
    }
  }

  lemma {:induction false} LastElementRoundTrip(elems: seq<JsonValue>, gap: string, indent: string, sep: string, htmlSafe: bool,
                                                lead: string, ws: string, rest: string)
    requires |elems| == 1
    requires AllSpaces(gap) && AllSpaces(indent) && AllWs(lead) && AllWs(ws)
    ensures ParseElements(lead + SerializeElements(elems, gap, indent, sep, htmlSafe) + ws + [']'] + rest) == Some((elems, rest))
    decreases elems, 0
  {
    var s0 := Serialize(elems[0], gap, indent, htmlSafe);
    var text := lead + SerializeElements(elems, gap, indent, sep, htmlSafe) + ws + [']'] + rest;
    var tail := ws + [']'] + rest;
    LastText(lead, s0, ws, ']', rest);
    assert text == lead + s0 + tail;
    ValueRoundTrip(elems[0], gap, indent, htmlSafe, lead, tail);
    ElementsLast(text, elems[0], ws, rest);
    assert [elems[0]] == elems;
  }

  lemma {:induction false} NextElementRoundTrip(elems: seq<JsonValue>, gap: string, indent: string, sep: string, htmlSafe: bool,
                                                lead: string, ws: string, rest: string)
    requires |elems| > 1
    requires AllSpaces(gap) && AllSpaces(indent) && AllWs(lead) && AllWs(ws)
    requires |sep| > 0 && sep[0] == ',' && AllWs(sep[1..])
    ensures ParseElements(lead + SerializeElements(elems, gap, indent, sep, htmlSafe) + ws + [']'] + rest) == Some((elems, rest))
    decreases elems, 0
  {
    var s0 := Serialize(elems[0], gap, indent, htmlSafe);
    var text := lead + SerializeElements(elems, gap, indent, sep, htmlSafe) + ws + [']'] + rest;
    var more := SerializeElements(elems[1..], gap, indent, sep, htmlSafe);
    var remaining := more + ws + [']'] + rest;
    assert SerializeElements(elems, gap, indent, sep, htmlSafe) == s0 + sep + more;
    EntryText(lead, s0, sep, more, ws, ']', rest);
    ValueRoundTrip(elems[0], gap, indent, htmlSafe, lead, sep + remaining);
    ElementsRoundTrip(elems[1..], gap, indent, sep, htmlSafe, sep[1..], ws, rest);
    ElementsNext(text, elems[0], sep, remaining, elems[1..], rest);
    assert [elems[0]] + elems[1..] == elems;
  }

  /** A quoted key after optional whitespace reads back as itself. */
  lemma KeyRoundTrip(k: string, htmlSafe: bool, lead: string, tail: string)
    requires AllWs(lead)
    ensures var t := SkipWs(lead + Quote(k, htmlSafe) + tail);
            t != [] && t[0] == '"' && ParseString(t[1..]) == Some((k, tail))
  {
    var x := Quote(k, htmlSafe) + tail;
    assert lead + Quote(k, htmlSafe) + tail == lead + x;
    SkipWsLead(lead, x);
    assert x[0] == '"';
    assert SkipWs(x) == x;
    assert x[1..] == QuoteBody(k, htmlSafe) + ['"'] + tail;
    QuoteBodyRoundTrip(k, htmlSafe, tail);
  }

  /** What ParseMembers reads of one member: its key after optional
      whitespace, then, after the colon, its value. */
  predicate MemberReads(s: string, k: string, v: JsonValue, after: string)
  {
    var t := SkipWs(s);
    && t != [] && t[0] == '"'
    && match ParseString(t[1..])
       case None => false
       case Some((key, afterKey)) =>
         && key == k && afterKey != [] && afterKey[0] == ':'
         && ParseValue(afterKey[1..]) == Some((v, after))
  }

  /** ParseMembers after a member followed by the closing brace. */
  lemma MembersLast(s: string, k: string, v: JsonValue, ws: string, rest: string)
    requires AllWs(ws)
    requires MemberReads(s, k, v, ws + ['}'] + rest)
    ensures ParseMembers(s) == Some(([(k, v)], rest))
  {
    var afterKey := ParseString(SkipWs(s)[1..]).value.1;
    assert SkipWs(afterKey) == afterKey;
    AfterEntry([','], [], ws, '}', rest);
  }

  /** ParseMembers after a member followed by a separator and more members. */
  lemma MembersNext(s: string, k: string, v: JsonValue, sep: string, more: string, ms: seq<(string, JsonValue)>, rest: string)
    requires |sep| > 0 && sep[0] == ','
    requires MemberReads(s, k, v, sep + more)
    requires ParseMembers(sep[1..] + more) == Some((ms, rest))
    ensures ParseMembers(s) == Some(([(k, v)] + ms, rest))
  {
    SeparatorText(sep, more);
  }

  lemma Regroup3(lead: string, a: string, b: string, c: string, after: string)
    ensures lead + (a + b + c) + after == lead + a + (b + c + after)
  {
  }

  lemma DropFirst(a: string, b: string, c: string)
    requires |a| > 0
    ensures (a + b + c)[1..] == a[1..] + b + c
  {
    assert (a + b + c)[1..] == (a[1..] + b + c)[..];
  }

  /** The colon between key and value, with its space when pretty. */
  lemma ColonShape(gap: string, colon: string)
    requires colon == if gap == [] then ":" else ": "
    ensures |colon| > 0 && colon[0] == ':' && AllWs(colon[1..])
  {
  }

  /** One serialised member, after optional whitespace, reads back as itself. */
  lemma {:induction false} MemberRoundTrip(m: (string, JsonValue), gap: string, indent: string, htmlSafe: bool, lead: string, after: string)
    requires AllSpaces(gap) && AllSpaces(indent) && AllWs(lead)
    requires after == [] || !IsDigit(after[0])
    ensures MemberReads(lead + SerializeMember(m, gap, indent, htmlSafe) + after, m.0, m.1, after)
    decreases m, 0
  {
    var colon := if gap == [] then ":" else ": ";
    var q := Quote(m.0, htmlSafe);
    var sv := Serialize(m.1, gap, indent, htmlSafe);
    var afterKey := colon + sv + after;
    ColonShape(gap, colon);
    var ws := colon[1..];
    assert SerializeMember(m, gap, indent, htmlSafe) == q + colon + sv;
    Regroup3(lead, q, colon, sv, after);
    var x := lead + SerializeMember(m, gap, indent, htmlSafe) + after;
    assert x == lead + q + afterKey;
    KeyRoundTrip(m.0, htmlSafe, lead, afterKey);
    assert afterKey[0] == ':';
    DropFirst(colon, sv, after);
    ValueRoundTrip(m.1, gap, indent, htmlSafe, ws, after);
    assert ParseValue(afterKey[1..]) == Some((m.1, after));
  }

  lemma {:induction false} MembersRoundTrip(members: seq<(string, JsonValue)>, gap: string, indent: string, sep: string, htmlSafe: bool,
                                            lead: string, ws: string, rest: string)
    requires members != []
    requires AllSpaces(gap) && AllSpaces(indent) && AllWs(lead) && AllWs(ws)
    requires |sep| > 0 && sep[0] == ',' && AllWs(sep[1..])
    ensures ParseMembers(lead + SerializeMembers(members, gap, indent, sep, htmlSafe) + ws + ['}'] + rest) == Some((members, rest))
    decreases members, 1
  {
    if |members| == 1 {
      LastMemberRoundTrip(members, gap, indent, sep, htmlSafe, lead, ws, rest);
    } else {
      NextMemberRoundTrip(members, gap, indent, sep, htmlSafe, lead, ws, rest);
    }
  }

  lemma {:induction false} LastMemberRoundTrip(members: seq<(string, JsonValue)>, gap: string, indent: string, sep: string, htmlSafe: bool,
                                               lead: string, ws: string, rest: string)
    requires |members| == 1
    requires AllSpaces(gap) && AllSpaces(indent) && AllWs(lead) && AllWs(ws)
    ensures ParseMembers(lead + SerializeMembers(members, gap, indent, sep, htmlSafe) + ws + ['}'] + rest) == Some((members, rest))
    decreases members, 0
  {
    var m0 := SerializeMember(members[0], gap, indent, htmlSafe);
    var text := lead + SerializeMembers(members, gap, indent, sep, htmlSafe) + ws + ['}'] + rest;
    var tail := ws + ['}'] + rest;
    LastText(lead, m0, ws, '}', rest);
    assert text == lead + m0 + tail;
    MemberRoundTrip(members[0], gap, indent, htmlSafe, lead, tail);
    MembersLast(text, members[0].0, members[0].1, ws, rest);
    assert [(members[0].0, members[0].1)] == members;
  }

  lemma {:induction false} NextMemberRoundTrip(members: seq<(string, JsonValue)>, gap: string, indent: string, sep: string, htmlSafe: bool,
                                               lead: string, ws: string, rest: string)
    requires |members| > 1
    requires AllSpaces(gap) && AllSpaces(indent) && AllWs(lead) && AllWs(ws)
    requires |sep| > 0 && sep[0] == ',' && AllWs(sep[1..])
    ensures ParseMembers(lead + SerializeMembers(members, gap, indent, sep, htmlSafe) + ws + ['}'] + rest) == Some((members, rest))
    decreases members, 0
  {
    var m0 := SerializeMember(members[0], gap, indent, htmlSafe);
    var text := lead + SerializeMembers(members, gap, indent, sep, htmlSafe) + ws + ['}'] + rest;
    var more := SerializeMembers(members[1..], gap, indent, sep, htmlSafe);
    var remaining := more + ws + ['}'] + rest;
    assert SerializeMembers(members, gap, indent, sep, htmlSafe) == m0 + sep + more;
    EntryText(lead, m0, sep, more, ws, '}', rest);
    MemberRoundTrip(members[0], gap, indent, htmlSafe, lead, sep + remaining);
    MembersRoundTrip(members[1..], gap, indent, sep, htmlSafe, sep[1..], ws, rest);
    MembersNext(text, members[0].0, members[0].1, sep, remaining, members[1..], rest);
    assert [(members[0].0, members[0].1)] + members[1..] == members;
  }

  // ---------------------------------------------------------------------
  // Whole texts.

  /** Decoding a whole serialisation gives the value back. */
  lemma SerializeRoundTrip(v: JsonValue, gap: string, htmlSafe: bool)
    requires AllSpaces(gap)
    ensures Decode(Serialize(v, gap, "", htmlSafe)) == Some(v)
  {
    ValueRoundTrip(v, gap, "", htmlSafe, [], []);
    assert [] + Serialize(v, gap, "", htmlSafe) + [] == Serialize(v, gap, "", htmlSafe);
  }

  /** JSON.parse(JSON.stringify(v, null, space)) is `v`, for every indentation. */
  lemma StringifyRoundTrip(v: JsonValue, space: nat)
    ensures Decode(Stringify(v, space)) == Some(v)
  {
    SerializeRoundTrip(v, Spaces(if space < 10 then space else 10), false);
  }
}
