/** The documents of the repository's tests, encoded exactly. */
module JsonLdVectors {
  import opened JsonValues
  import opened JsonStringify
  import opened LdJsonEncode
  import opened JsonParse
  import opened JsonLdContract

  /** A character QuoteJSONString copies as itself. */
  predicate PlainChar(c: char, htmlSafe: bool)
  {
    (c as int) >= 0x20 && c != '"' && c != '\\' && !(htmlSafe && IsAngle(c))
  }

  predicate Plain(s: string, htmlSafe: bool)
  {
    forall i :: 0 <= i < |s| ==> PlainChar(s[i], htmlSafe)
  }

  lemma QuoteBodyPlain(p: string, s: string, htmlSafe: bool)
    requires Plain(p, htmlSafe)
    ensures QuoteBody(p + s, htmlSafe) == p + QuoteBody(s, htmlSafe)
  {
    QuoteBodyAppend(p, s, htmlSafe);
    QuoteBodyPlainId(p, htmlSafe);
  }

  /** Plain text is its own quoted body. */
  lemma {:induction false} QuoteBodyPlainId(p: string, htmlSafe: bool)
    requires Plain(p, htmlSafe)
    ensures QuoteBody(p, htmlSafe) == p
  {
    if p != [] {
      QuoteCharPlain(p[0], htmlSafe);
      assert Plain(p[1..], htmlSafe) by {
        forall i | 0 <= i < |p[1..]| ensures PlainChar(p[1..][i], htmlSafe) {
          assert p[1..][i] == p[i + 1];
        }
      }
      QuoteBodyPlainId(p[1..], htmlSafe);
      assert p == [p[0]] + p[1..];
    }
  }

  lemma QuoteCharPlain(c: char, htmlSafe: bool)
    requires PlainChar(c, htmlSafe)
    ensures QuoteChar(c, htmlSafe) == [c]
  {
  }

  lemma QuoteBodyCons(c: char, s: string, htmlSafe: bool)
    ensures QuoteBody([c] + s, htmlSafe) == QuoteChar(c, htmlSafe) + QuoteBody(s, htmlSafe)
  {
    assert ([c] + s)[0] == c;
    assert ([c] + s)[1..] == s;
  }

  lemma QuotePlain(s: string, htmlSafe: bool)
    requires Plain(s, htmlSafe)
    ensures Quote(s, htmlSafe) == ['"'] + s + ['"']
  {
    QuoteBodyPlain(s, [], htmlSafe);
    assert s + [] == s;
  }

  /** A non-empty compact object is its members between braces, comma-joined. */
  lemma CompactObject(ms: seq<(string, JsonValue)>, htmlSafe: bool)
    requires ms != []
    ensures Serialize(Object(ms), "", "", htmlSafe) == ['{'] + SerializeMembers(ms, "", "", ",", htmlSafe) + ['}']
  {
    assert "" + "" == "";
  }

  lemma ThreeMembers(ms: seq<(string, JsonValue)>, gap: string, indent: string, sep: string, htmlSafe: bool)
    requires |ms| == 3
    ensures SerializeMembers(ms, gap, indent, sep, htmlSafe)
            == SerializeMember(ms[0], gap, indent, htmlSafe) + sep + SerializeMember(ms[1], gap, indent, htmlSafe)
               + sep + SerializeMember(ms[2], gap, indent, htmlSafe)
  {
    var m0 := SerializeMember(ms[0], gap, indent, htmlSafe);
    var m1 := SerializeMember(ms[1], gap, indent, htmlSafe);
    var m2 := SerializeMember(ms[2], gap, indent, htmlSafe);
    assert ms[1..][0] == ms[1] && ms[1..][1..] == [ms[2]];
    assert SerializeMembers(ms[1..], gap, indent, sep, htmlSafe) == m1 + sep + m2;
    assert SerializeMembers(ms, gap, indent, sep, htmlSafe) == m0 + sep + (m1 + sep + m2);
    JoinThree(m0, sep, m1, m2);
  }

  lemma JoinThree(a: string, sep: string, b: string, c: string)
    ensures a + sep + (b + sep + c) == a + sep + b + sep + c
  {
  }

  /** A compact object of three members: the members between braces, comma-joined. */
  lemma ThreeMemberObject(ms: seq<(string, JsonValue)>, htmlSafe: bool)
    requires |ms| == 3
    ensures Serialize(Object(ms), "", "", htmlSafe)
            == ['{'] + SerializeMember(ms[0], "", "", htmlSafe) + [','] + SerializeMember(ms[1], "", "", htmlSafe)
               + [','] + SerializeMember(ms[2], "", "", htmlSafe) + ['}']
  {
    CompactObject(ms, htmlSafe);
    ThreeMembers(ms, "", "", ",", htmlSafe);
    Braced(SerializeMember(ms[0], "", "", htmlSafe), [','], SerializeMember(ms[1], "", "", htmlSafe), SerializeMember(ms[2], "", "", htmlSafe));
  }

  lemma Braced(a: string, sep: string, b: string, c: string)
    ensures ['{'] + (a + sep + b + sep + c) + ['}'] == ['{'] + a + sep + b + sep + c + ['}']
  {
  }

  /** A compact member whose value is a string. */
  lemma StringMember(k: string, v: string, htmlSafe: bool)
    ensures SerializeMember((k, String(v)), "", "", htmlSafe) == Quote(k, htmlSafe) + [':'] + Quote(v, htmlSafe)
  {
  }

  /** The documents of the tests: a schema.org Person with a context, a type and a name. */
  function Person(context: string, kind: string, name: string): (d: JsonValue)
    ensures IsJsonLDData(d)
  {
    var d := Object([("@context", String(context)), ("@type", String(kind)), ("name", String(name))]);
    assert d.members[0].0 == "@context";
    d
  }

  /** The quoted form of the three keys of a Person. */
  lemma PersonKeys(htmlSafe: bool)
    ensures Quote("@context", htmlSafe) == "\"@context\""
    ensures Quote("@type", htmlSafe) == "\"@type\""
    ensures Quote("name", htmlSafe) == "\"name\""
  {
    assert Plain("@context", htmlSafe) && Plain("@type", htmlSafe) && Plain("name", htmlSafe);
    QuotePlain("@context", htmlSafe);
    QuotePlain("@type", htmlSafe);
    QuotePlain("name", htmlSafe);
  }

  /** A compact object of three members with string values, the first two plain. */
  lemma ThreeStrings(k0: string, v0: string, k1: string, v1: string, k2: string, v2: string, htmlSafe: bool)
    requires Plain(v0, htmlSafe) && Plain(v1, htmlSafe)
    ensures Serialize(Object([(k0, String(v0)), (k1, String(v1)), (k2, String(v2))]), "", "", htmlSafe)
            == ['{'] + (Quote(k0, htmlSafe) + [':'] + (['"'] + v0 + ['"']))
               + [','] + (Quote(k1, htmlSafe) + [':'] + (['"'] + v1 + ['"']))
               + [','] + (Quote(k2, htmlSafe) + [':'] + (['"'] + QuoteBody(v2, htmlSafe) + ['"'])) + ['}']
  {
    var ms := [(k0, String(v0)), (k1, String(v1)), (k2, String(v2))];
    ThreeMemberObject(ms, htmlSafe);
    StringMember(k0, v0, htmlSafe);
    StringMember(k1, v1, htmlSafe);
    StringMember(k2, v2, htmlSafe);
    QuotePlain(v0, htmlSafe);
    QuotePlain(v1, htmlSafe);
  }

  lemma PersonLayout(c: string, k: string, n: string)
    ensures ['{'] + ("\"@context\"" + [':'] + (['"'] + c + ['"'])) + [','] + ("\"@type\"" + [':'] + (['"'] + k + ['"']))
               + [','] + ("\"name\"" + [':'] + (['"'] + n + ['"'])) + ['}']
            == "{\"@context\":\"" + c + "\",\"@type\":\"" + k + "\",\"name\":\"" + n + "\"}"
  {
  }

  /** The compact text of a Person whose context and type need no escape. */
  lemma PersonText(context: string, kind: string, name: string, htmlSafe: bool)
    requires Plain(context, htmlSafe) && Plain(kind, htmlSafe)
    ensures Serialize(Person(context, kind, name), "", "", htmlSafe)
            == "{\"@context\":\"" + context + "\",\"@type\":\"" + kind + "\",\"name\":\"" + QuoteBody(name, htmlSafe) + "\"}"
  {
    ThreeStrings("@context", context, "@type", kind, "name", name, htmlSafe);
    PersonKeys(htmlSafe);
    PersonLayout(context, kind, QuoteBody(name, htmlSafe));
  }

  /** A Person whose strings hold nothing to quote or escape is encoded as
      plain JSON.stringify writes it. */
  lemma PersonSafe(context: string, kind: string, name: string)
    requires Plain(context, true) && Plain(kind, true) && Plain(name, true)
    ensures EncodeJsonLD(Person(context, kind, name), false)
            == "{\"@context\":\"" + context + "\",\"@type\":\"" + kind + "\",\"name\":\"" + name + "\"}"
    ensures EncodeJsonLD(Person(context, kind, name), false) == Stringify(Person(context, kind, name), 0)
  {
    assert Plain(context, false) && Plain(kind, false) && Plain(name, false);
    EncodeIsHtmlSafeSerialize(Person(context, kind, name), false);
    PersonText(context, kind, name, true);
    PersonText(context, kind, name, false);
    QuoteBodyPlain(name, [], true);
    QuoteBodyPlain(name, [], false);
    assert name + [] == name;
    assert Gap(false) == "";
  }

  /** The common start of the compact text of the test documents. */
  lemma PersonPrefix(context: string, kind: string)
    requires context == "https://schema.org/" && kind == "Person"
    ensures "{\"@context\":\"" + context + "\",\"@type\":\"" + kind + "\",\"name\":\"" == "{\"@context\":\"https://schema.org/\",\"@type\":\"Person\",\"name\":\""
  {
    assert "{\"@context\":\"" + context == "{\"@context\":\"https://schema.org/";
    assert "{\"@context\":\"https://schema.org/" + "\",\"@type\":\"" == "{\"@context\":\"https://schema.org/\",\"@type\":\"";
    assert "{\"@context\":\"https://schema.org/\",\"@type\":\"" + kind == "{\"@context\":\"https://schema.org/\",\"@type\":\"Person";
  }

  lemma SafeLiteral(context: string, kind: string, name: string)
    requires context == "https://schema.org/" && kind == "Person" && name == "Espen Hovlandsdal"
    ensures "{\"@context\":\"" + context + "\",\"@type\":\"" + kind + "\",\"name\":\"" + name + "\"}"
            == "{\"@context\":\"https://schema.org/\",\"@type\":\"Person\",\"name\":\"Espen Hovlandsdal\"}"
  {
    PersonPrefix(context, kind);
    assert "{\"@context\":\"https://schema.org/\",\"@type\":\"Person\",\"name\":\"" + name == "{\"@context\":\"https://schema.org/\",\"@type\":\"Person\",\"name\":\"Espen Hovlandsdal";
  }

  /** encodeJsonLD(input) for the "safe data" test: the text of
      JSON.stringify(input), unchanged. */
  lemma SafeVector(context: string, kind: string, name: string)
    requires context == "https://schema.org/" && kind == "Person" && name == "Espen Hovlandsdal"
    ensures EncodeJsonLD(Person(context, kind, name), false)
            == "{\"@context\":\"https://schema.org/\",\"@type\":\"Person\",\"name\":\"Espen Hovlandsdal\"}"
    ensures EncodeJsonLD(Person(context, kind, name), false) == Stringify(Person(context, kind, name), 0)
    ensures Decode(EncodeJsonLD(Person(context, kind, name), false)) == Some(Person(context, kind, name))
  {
    assert Plain(context, true) && Plain(kind, true) && Plain(name, true);
    PersonSafe(context, kind, name);
    SafeLiteral(context, kind, name);
    EncodeRoundTrip(Person(context, kind, name), false);
  }

  lemma {:induction false} QuoteBodyAppend(a: string, b: string, htmlSafe: bool)
    ensures QuoteBody(a + b, htmlSafe) == QuoteBody(a, htmlSafe) + QuoteBody(b, htmlSafe)
  {
    if a == [] {
      assert a + b == b;
    } else {
      assert (a + b)[0] == a[0];
      assert (a + b)[1..] == a[1..] + b;
      QuoteBodyAppend(a[1..], b, htmlSafe);
    }
  }

  /** Inside a string, an HTML tag `<p>` is quoted as `\u003c` p `\u003e`. */
  lemma TagQuote(p: string)
    requires Plain(p, true)
    ensures QuoteBody(['<'] + p + ['>'], true) == LtEscape + p + GtEscape
  {
    QuoteBodyCons('<', p + ['>'], true);
    assert ['<'] + p + ['>'] == ['<'] + (p + ['>']);
    QuoteBodyPlain(p, ['>'], true);
    QuoteBodyCons('>', [], true);
    assert ['>'] + [] == ['>'];
    assert QuoteChar('<', true) == LtEscape;
    assert QuoteChar('>', true) == GtEscape;
  }

  /** A call `f("a")` is quoted with its two quotation marks escaped. */
  lemma CallQuote(f: string, a: string)
    requires Plain(f, true) && Plain(a, true)
    ensures QuoteBody(f + ['(', '"'] + a + ['"', ')'], true) == f + ['(', '\\', '"'] + a + ['\\', '"', ')']
  {
    var fp := f + ['('];
    assert Plain(fp, true) by {
      forall i | 0 <= i < |fp| ensures PlainChar(fp[i], true) {
        if i < |f| { assert fp[i] == f[i]; }
      }
    }
    CallPieces(f, a);
    QuoteBodyFive(fp, ['"'], a, ['"'], [')'], true);
    QuoteBodyPlainId(fp, true);
    QuoteBodyPlainId(a, true);
    QuoteBodyPlainId([')'], true);
    QuoteBodyCons('"', [], true);
    assert QuoteBody(['"'], true) == ['\\', '"'] by {
      assert ['"'] + [] == ['"'];
    }
  }

  lemma CallPieces(f: string, a: string)
    ensures f + ['(', '"'] + a + ['"', ')'] == (f + ['(']) + ['"'] + a + ['"'] + [')']
    ensures f + ['(', '\\', '"'] + a + ['\\', '"', ')'] == (f + ['(']) + ['\\', '"'] + a + ['\\', '"'] + [')']
  {
  }

  /** The quoted body of five consecutive pieces, piece by piece. */
  lemma QuoteBodyFive(p: string, q: string, r: string, s: string, t: string, htmlSafe: bool)
    ensures QuoteBody(p + q + r + s + t, htmlSafe)
            == QuoteBody(p, htmlSafe) + QuoteBody(q, htmlSafe) + QuoteBody(r, htmlSafe) + QuoteBody(s, htmlSafe) + QuoteBody(t, htmlSafe)
  {
    QuoteBodyAppend(p + q + r + s, t, htmlSafe);
    QuoteBodyAppend(p + q + r, s, htmlSafe);
    QuoteBodyAppend(p + q, r, htmlSafe);
    QuoteBodyAppend(p, q, htmlSafe);
  }

  /** A script injection `</c><o>f("a")</c>` inside a string: every angle
      bracket and both quotation marks escaped, the rest copied. */
  lemma InjectionQuote(c: string, o: string, f: string, a: string)
    requires Plain(c, true) && Plain(o, true) && Plain(f, true) && Plain(a, true)
    ensures var close := ['<'] + c + ['>'];
            var call := f + ['(', '"'] + a + ['"', ')'];
            var closeQ := LtEscape + c + GtEscape;
            QuoteBody(close + (['<'] + o + ['>']) + call + close, true)
            == closeQ + (LtEscape + o + GtEscape) + (f + ['(', '\\', '"'] + a + ['\\', '"', ')']) + closeQ
  {
    var close := ['<'] + c + ['>'];
    var open := ['<'] + o + ['>'];
    var call := f + ['(', '"'] + a + ['"', ')'];
    QuoteBodyAppend(close + open + call, close, true);
    QuoteBodyAppend(close + open, call, true);
    QuoteBodyAppend(close, open, true);
    TagQuote(c);
    TagQuote(o);
    CallQuote(f, a);
  }

  lemma XssLiteral(name: string)
    requires name == "</script><script>alert(\"xss\")</script>"
    ensures var close := ['<'] + "/script" + ['>'];
            name == close + (['<'] + "script" + ['>']) + ("alert" + ['(', '"'] + "xss" + ['"', ')']) + close
  {
  }

  /** The quoted name of the "unsafe data" tests, piece by piece. */
  lemma XssBody(name: string)
    requires name == "</script><script>alert(\"xss\")</script>"
    ensures QuoteBody(name, true) == "\\u003c/script\\u003e" + "\\u003cscript\\u003e" + "alert(\\\"xss\\\")" + "\\u003c/script\\u003e"
  {
    XssLiteral(name);
    XssPiecesPlain("/script", "script", "alert", "xss");
    InjectionQuote("/script", "script", "alert", "xss");
    XssPieces(LtEscape + "/script" + GtEscape, LtEscape + "script" + GtEscape, "alert" + ['(', '\\', '"'] + "xss" + ['\\', '"', ')']);
  }

  lemma XssPiecesPlain(c: string, o: string, f: string, a: string)
    requires c == "/script" && o == "script" && f == "alert" && a == "xss"
    ensures Plain(c, true) && Plain(o, true) && Plain(f, true) && Plain(a, true)
  {
  }

  lemma XssPieces(closeQ: string, openQ: string, callQ: string)
    requires closeQ == LtEscape + "/script" + GtEscape
    requires openQ == LtEscape + "script" + GtEscape
    requires callQ == "alert" + ['(', '\\', '"'] + "xss" + ['\\', '"', ')']
    ensures closeQ == "\\u003c/script\\u003e" && openQ == "\\u003cscript\\u003e" && callQ == "alert(\\\"xss\\\")"
  {
  }

  /** encodeJsonLD(input) for the "unsafe data" tests: the exact text they
      expect (written in pieces), every `<` and `>` of the name escaped. */
  lemma XssVector(context: string, kind: string, name: string)
    requires context == "https://schema.org/" && kind == "Person" && name == "</script><script>alert(\"xss\")</script>"
    ensures EncodeJsonLD(Person(context, kind, name), false)
            == "{\"@context\":\"https://schema.org/\",\"@type\":\"Person\",\"name\":\""
               + "\\u003c/script\\u003e" + "\\u003cscript\\u003e" + "alert(\\\"xss\\\")" + "\\u003c/script\\u003e" + "\"}"
  {
    assert Plain(context, true) && Plain(kind, true);
    EncodeIsHtmlSafeSerialize(Person(context, kind, name), false);
    assert Gap(false) == "";
    PersonText(context, kind, name, true);
    XssBody(name);
    PersonPrefix(context, kind);
    Assemble(EncodeJsonLD(Person(context, kind, name), false),
             "{\"@context\":\"" + context + "\",\"@type\":\"" + kind + "\",\"name\":\"", QuoteBody(name, true), "\"}",
             "{\"@context\":\"https://schema.org/\",\"@type\":\"Person\",\"name\":\"",
             "\\u003c/script\\u003e", "\\u003cscript\\u003e", "alert(\\\"xss\\\")");
  }

  /** Substituting the literal forms of the pieces of an encoding. */
  lemma Assemble(enc: string, pre: string, body: string, post: string, preText: string, closeQ: string, openQ: string, callQ: string)
    requires enc == pre + body + post
    requires pre == preText
    requires body == closeQ + openQ + callQ + closeQ
    ensures enc == preText + closeQ + openQ + callQ + closeQ + post
  {
  }
}
