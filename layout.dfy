/** The compact layout: JSON.stringify without a gap writes no insignificant
    whitespace, so its text holds no line break, carriage return or tab at
    all (inside strings those are always escaped). */
module JsonLayout {
  import opened JsonValues
  import opened JsonStringify
  import opened LdJsonEncode
  import opened SafeJson
  import opened JsonLdContract

  predicate IsBreak(c: char)
  {
    c == '\n' || c == '\r' || c == '\t'
  }

  /** Text on one line: no line break, carriage return or tab. */
  predicate OneLine(s: string)
  {
    forall i :: 0 <= i < |s| ==> !IsBreak(s[i])
  }

  lemma OneLineAppend(a: string, b: string)
    requires OneLine(a) && OneLine(b)
    ensures OneLine(a + b)
  {
    forall i | 0 <= i < |a + b| ensures !IsBreak((a + b)[i]) {
      if i >= |a| {
        assert (a + b)[i] == b[i - |a|];
      }
    }
  }

  lemma QuoteCharOneLine(c: char, htmlSafe: bool)
    ensures OneLine(QuoteChar(c, htmlSafe))
  {
  }

  lemma {:induction false} QuoteBodyOneLine(s: string, htmlSafe: bool)
    ensures OneLine(QuoteBody(s, htmlSafe))
  {
    if s != [] {
      QuoteCharOneLine(s[0], htmlSafe);
      QuoteBodyOneLine(s[1..], htmlSafe);
      OneLineAppend(QuoteChar(s[0], htmlSafe), QuoteBody(s[1..], htmlSafe));
    }
  }

  lemma QuoteOneLine(s: string, htmlSafe: bool)
    ensures OneLine(Quote(s, htmlSafe))
  {
    QuoteBodyOneLine(s, htmlSafe);
    OneLineAppend(['"'], QuoteBody(s, htmlSafe));
    OneLineAppend(['"'] + QuoteBody(s, htmlSafe), ['"']);
  }

  lemma {:induction false} NatToStringOneLine(n: nat)
    ensures OneLine(NatToString(n))
  {
    if n >= 10 {
      NatToStringOneLine(n / 10);
      OneLineAppend(NatToString(n / 10), [DigitChar(n % 10)]);
    }
  }

  /** The compact serialisation of any value is one line. */
  lemma {:induction false} CompactOneLine(v: JsonValue, indent: string, htmlSafe: bool)
    requires OneLine(indent)
    ensures OneLine(Serialize(v, "", indent, htmlSafe))
    decreases v, 1
  {
    match v
    case Null =>
    case Bool(b) =>
    case Number(n) =>
      NatToStringOneLine(if n < 0 then -n else n);
      if n < 0 {
        OneLineAppend("-", NatToString(-n));
      }
    case String(s) => QuoteOneLine(s, htmlSafe);
    case Array(elems) =>
      if elems != [] {
        assert indent + "" == indent;
        ElementsOneLine(elems, indent, htmlSafe);
        OneLineAppend(['['], SerializeElements(elems, "", indent, ",", htmlSafe));
        OneLineAppend(['['] + SerializeElements(elems, "", indent, ",", htmlSafe), [']']);
      }
    case Object(members) =>
      if members != [] {
        assert indent + "" == indent;
        MembersOneLine(members, indent, htmlSafe);
        OneLineAppend(['{'], SerializeMembers(members, "", indent, ",", htmlSafe));
        OneLineAppend(['{'] + SerializeMembers(members, "", indent, ",", htmlSafe), ['}']);
      }
  }

  lemma {:induction false} ElementsOneLine(elems: seq<JsonValue>, indent: string, htmlSafe: bool)
    requires elems != [] && OneLine(indent)
    ensures OneLine(SerializeElements(elems, "", indent, ",", htmlSafe))
    decreases elems
  {
    CompactOneLine(elems[0], indent, htmlSafe);
    if |elems| > 1 {
      var head := Serialize(elems[0], "", indent, htmlSafe);
      ElementsOneLine(elems[1..], indent, htmlSafe);
      OneLineAppend(head, ",");
      OneLineAppend(head + ",", SerializeElements(elems[1..], "", indent, ",", htmlSafe));
    }
  }

  lemma {:induction false} MemberOneLine(m: (string, JsonValue), indent: string, htmlSafe: bool)
    requires OneLine(indent)
    ensures OneLine(SerializeMember(m, "", indent, htmlSafe))
    decreases m
  {
    QuoteOneLine(m.0, htmlSafe);
    CompactOneLine(m.1, indent, htmlSafe);
    OneLineAppend(Quote(m.0, htmlSafe), ":");
    OneLineAppend(Quote(m.0, htmlSafe) + ":", Serialize(m.1, "", indent, htmlSafe));
  }

  lemma {:induction false} MembersOneLine(members: seq<(string, JsonValue)>, indent: string, htmlSafe: bool)
    requires members != [] && OneLine(indent)
    ensures OneLine(SerializeMembers(members, "", indent, ",", htmlSafe))
    decreases members
  {
    MemberOneLine(members[0], indent, htmlSafe);
    if |members| > 1 {
      var head := SerializeMember(members[0], "", indent, htmlSafe);
      MembersOneLine(members[1..], indent, htmlSafe);
      OneLineAppend(head, ",");
      OneLineAppend(head + ",", SerializeMembers(members[1..], "", indent, ",", htmlSafe));
    }
  }

  /** encodeJsonLD(data) without `pretty` is a single line. */
  lemma EncodeCompactOneLine(data: JsonValue)
    requires IsJsonLDData(data)
    ensures OneLine(EncodeJsonLD(data, false))
  {
    EncodeIsHtmlSafeSerialize(data, false);
    CompactOneLine(data, "", true);
  }
}
