/** Where escaping lands: JSON.stringify emits `<` and `>` only as characters
    of string literals (keys and string values), never in its structural
    text, so escaping the serialised text is the same as serialising with
    `<` and `>` quoted as `\u003c` and `\u003e` inside the strings. */
module SafeJson {
  import opened JsonValues
  import opened JsonStringify
  import opened LdJsonEncode

  lemma UnicodeEscapeNoAngles(n: int)
    requires 0 <= n < 0x1_0000
    ensures NoAngles(UnicodeEscape(n))
  {
  }

  lemma {:induction false} NatToStringDigits(n: nat)
    ensures forall i :: 0 <= i < |NatToString(n)| ==> IsDigit(NatToString(n)[i])
  {
    if n >= 10 {
      NatToStringDigits(n / 10);
    }
  }

  lemma IntToStringNoAngles(n: int)
    ensures NoAngles(IntToString(n))
  {
    NatToStringDigits(if n < 0 then -n else n);
  }

  lemma EscapeQuoteChar(c: char)
    ensures EscapeChars(QuoteChar(c, false)) == QuoteChar(c, true)
  {
    if IsAngle(c) {
      AngleQuote(c);
    } else {
      NonAngleQuote(c);
      EscapeCharsIdentity(QuoteChar(c, false));
    }
  }

  /** The `htmlSafe` quoting of `<` and `>` is the escape's replacement text. */
  lemma AngleQuote(c: char)
    requires IsAngle(c)
    ensures QuoteChar(c, false) == [c]
    ensures EscapeChars([c]) == QuoteChar(c, true)
  {
    assert EscapeChars([c]) == EscapeChar(c) + EscapeChars([]);
    var u := UnicodeEscape(c as int);
    assert QuoteChar(c, true) == u;
    if c == '<' {
      assert u == LtEscape;
    } else {
      assert u == GtEscape;
    }
  }

  /** Any other character is quoted alike either way, without angle brackets. */
  lemma NonAngleQuote(c: char)
    requires !IsAngle(c)
    ensures QuoteChar(c, false) == QuoteChar(c, true) && NoAngles(QuoteChar(c, false))
  {
    if (c as int) < 0x20 {
      UnicodeEscapeNoAngles(c as int);
    }
  }

  lemma {:induction false} EscapeQuoteBody(s: string)
    ensures EscapeChars(QuoteBody(s, false)) == QuoteBody(s, true)
  {
    if s != [] {
      EscapeCharsAppend(QuoteChar(s[0], false), QuoteBody(s[1..], false));
      EscapeQuoteChar(s[0]);
      EscapeQuoteBody(s[1..]);
    }
  }

  lemma EscapeQuote(s: string)
    ensures EscapeChars(Quote(s, false)) == Quote(s, true)
  {
    EscapeCharsAppend(['"'] + QuoteBody(s, false), ['"']);
    EscapeCharsAppend(['"'], QuoteBody(s, false));
    EscapeQuoteBody(s);
    EscapeCharsIdentity(['"']);
  }

  lemma EscapeBracketed(open: char, close: char, body: string, gap: string, indent: string)
    requires !IsAngle(open) && !IsAngle(close) && NoAngles(gap) && NoAngles(indent)
    ensures EscapeChars(Bracketed(open, close, body, gap, indent)) == Bracketed(open, close, EscapeChars(body), gap, indent)
  {
    var o, c := Opening(gap, indent), Closing(gap, indent);
    LayoutNoAngles(gap, indent);
    EscapeAround([open] + o, body, c + [close]);
    BracketedSplit(open, o, body, c, close);
    BracketedSplit(open, o, EscapeChars(body), c, close);
  }

  /** The layout text around the entries holds no angle brackets. */
  lemma LayoutNoAngles(gap: string, indent: string)
    requires NoAngles(gap) && NoAngles(indent)
    ensures NoAngles(Opening(gap, indent)) && NoAngles(Closing(gap, indent))
  {
    var o, c := Opening(gap, indent), Closing(gap, indent);
    if gap != [] {
      assert forall i :: 0 <= i < |o| ==> o[i] == '\n' || o[i] in indent || o[i] in gap;
      assert forall i :: 0 <= i < |c| ==> c[i] == '\n' || c[i] in indent;
    }
  }

  lemma BracketedSplit(open: char, o: string, body: string, c: string, close: char)
    ensures [open] + o + body + c + [close] == ([open] + o) + body + (c + [close])
  {
  }

  /** Escaping text whose first and last parts hold no angle brackets. */
  lemma EscapeAround(pre: string, body: string, post: string)
    requires NoAngles(pre) && NoAngles(post)
    ensures EscapeChars(pre + body + post) == pre + EscapeChars(body) + post
  {
    EscapeCharsAppend(pre + body, post);
    EscapeCharsAppend(pre, body);
    EscapeCharsIdentity(pre);
    EscapeCharsIdentity(post);
  }

  lemma {:induction false} EscapeSerialize(v: JsonValue, gap: string, indent: string)
    requires NoAngles(gap) && NoAngles(indent)
    ensures EscapeChars(Serialize(v, gap, indent, false)) == Serialize(v, gap, indent, true)
    decreases v, 1
  {
    match v
    case Null => EscapeCharsIdentity("null");
    case Bool(b) => EscapeCharsIdentity("true"); EscapeCharsIdentity("false");
    case Number(n) => IntToStringNoAngles(n); EscapeCharsIdentity(IntToString(n));
    case String(s) => EscapeQuote(s);
    case Array(elems) =>
      if elems == [] {
        EscapeCharsIdentity("[]");
      } else {
        var inner := indent + gap;
        var sep := Separator(gap, inner);
        assert NoAngles(inner) && NoAngles(sep);
        EscapeBracketed('[', ']', SerializeElements(elems, gap, inner, sep, false), gap, indent);
        EscapeElements(elems, gap, inner, sep);
      }
    case Object(members) =>
      if members == [] {
        EscapeCharsIdentity("{}");
      } else {
        var inner := indent + gap;
        var sep := Separator(gap, inner);
        assert NoAngles(inner) && NoAngles(sep);
        EscapeBracketed('{', '}', SerializeMembers(members, gap, inner, sep, false), gap, indent);
        EscapeMembers(members, gap, inner, sep);
      }
  }

  lemma {:induction false} EscapeElements(elems: seq<JsonValue>, gap: string, indent: string, sep: string)
    requires elems != []
    requires NoAngles(gap) && NoAngles(indent) && NoAngles(sep)
    ensures EscapeChars(SerializeElements(elems, gap, indent, sep, false)) == SerializeElements(elems, gap, indent, sep, true)
    decreases elems
  {
    EscapeSerialize(elems[0], gap, indent);
    if |elems| > 1 {
      var head := Serialize(elems[0], gap, indent, false);
      var tail := SerializeElements(elems[1..], gap, indent, sep, false);
      EscapeCharsAppend(head + sep, tail);
      EscapeCharsAppend(head, sep);
      EscapeCharsIdentity(sep);
      EscapeElements(elems[1..], gap, indent, sep);
    }
  }

  lemma {:induction false} EscapeMember(m: (string, JsonValue), gap: string, indent: string)
    requires NoAngles(gap) && NoAngles(indent)
    ensures EscapeChars(SerializeMember(m, gap, indent, false)) == SerializeMember(m, gap, indent, true)
    decreases m
  {
    var colon := if gap == [] then ":" else ": ";
    var key := Quote(m.0, false);
    var value := Serialize(m.1, gap, indent, false);
    EscapeCharsAppend(key + colon, value);
    EscapeCharsAppend(key, colon);
    EscapeCharsIdentity(colon);
    EscapeQuote(m.0);
    EscapeSerialize(m.1, gap, indent);
  }

  lemma {:induction false} EscapeMembers(members: seq<(string, JsonValue)>, gap: string, indent: string, sep: string)
    requires members != []
    requires NoAngles(gap) && NoAngles(indent) && NoAngles(sep)
    ensures EscapeChars(SerializeMembers(members, gap, indent, sep, false)) == SerializeMembers(members, gap, indent, sep, true)
    decreases members
  {
    EscapeMember(members[0], gap, indent);
    if |members| > 1 {
      var head := SerializeMember(members[0], gap, indent, false);
      var tail := SerializeMembers(members[1..], gap, indent, sep, false);
      EscapeCharsAppend(head + sep, tail);
      EscapeCharsAppend(head, sep);
      EscapeCharsIdentity(sep);
      EscapeMembers(members[1..], gap, indent, sep);
    }
  }

  // ---------------------------------------------------------------------
  // Which data the escape leaves alone.

  /** No key and no string value anywhere in `v` holds a `<` or `>`. */
  predicate AngleFree(v: JsonValue)
    decreases v
  {
    match v
    case String(s) => NoAngles(s)
    case Array(elems) => forall i :: 0 <= i < |elems| ==> AngleFree(elems[i])
    case Object(members) => forall i :: 0 <= i < |members| ==> NoAngles(members[i].0) && AngleFree(members[i].1)
    case _ => true
  }

  lemma NoAnglesAppend(a: string, b: string)
    ensures NoAngles(a + b) <==> NoAngles(a) && NoAngles(b)
  {
    if NoAngles(a) && NoAngles(b) {
      forall i | 0 <= i < |a + b| ensures !IsAngle((a + b)[i]) {
        if i >= |a| {
          assert (a + b)[i] == b[i - |a|];
        }
      }
    }
    if NoAngles(a + b) {
      forall i | 0 <= i < |a| ensures !IsAngle(a[i]) {
        assert (a + b)[i] == a[i];
      }
      forall i | 0 <= i < |b| ensures !IsAngle(b[i]) {
        assert (a + b)[|a| + i] == b[i];
      }
    }
  }

  lemma QuoteCharAngles(c: char)
    ensures NoAngles(QuoteChar(c, false)) <==> !IsAngle(c)
  {
    if (c as int) < 0x20 {
      UnicodeEscapeNoAngles(c as int);
    } else if IsAngle(c) {
      assert QuoteChar(c, false)[0] == c;
    }
  }

  lemma {:induction false} QuoteBodyAngles(s: string)
    ensures NoAngles(QuoteBody(s, false)) <==> NoAngles(s)
  {
    if s != [] {
      NoAnglesAppend(QuoteChar(s[0], false), QuoteBody(s[1..], false));
      NoAnglesAppend([s[0]], s[1..]);
      assert s == [s[0]] + s[1..];
      QuoteCharAngles(s[0]);
      QuoteBodyAngles(s[1..]);
    }
  }

  lemma QuoteAngles(s: string)
    ensures NoAngles(Quote(s, false)) <==> NoAngles(s)
  {
    NoAnglesAppend(['"'] + QuoteBody(s, false), ['"']);
    NoAnglesAppend(['"'], QuoteBody(s, false));
    QuoteBodyAngles(s);
  }

  lemma BracketedAngles(open: char, close: char, body: string, gap: string, indent: string)
    requires !IsAngle(open) && !IsAngle(close) && NoAngles(gap) && NoAngles(indent)
    ensures NoAngles(Bracketed(open, close, body, gap, indent)) <==> NoAngles(body)
  {
    var o, c := Opening(gap, indent), Closing(gap, indent);
    LayoutNoAngles(gap, indent);
    BracketedSplit(open, o, body, c, close);
    assert NoAngles([open] + o) && NoAngles(c + [close]);
    NoAnglesAppend(([open] + o) + body, c + [close]);
    NoAnglesAppend([open] + o, body);
  }

  /** The plain serialisation holds a `<` or `>` exactly when some key or
      string of the value does. */
  lemma {:induction false} SerializeAngles(v: JsonValue, gap: string, indent: string)
    requires NoAngles(gap) && NoAngles(indent)
    ensures NoAngles(Serialize(v, gap, indent, false)) <==> AngleFree(v)
    decreases v, 1
  {
    match v
    case Null =>
    case Bool(b) =>
    case Number(n) => IntToStringNoAngles(n);
    case String(s) => QuoteAngles(s);
    case Array(elems) =>
      if elems != [] {
        var inner := indent + gap;
        var sep := Separator(gap, inner);
        assert NoAngles(inner) && NoAngles(sep);
        BracketedAngles('[', ']', SerializeElements(elems, gap, inner, sep, false), gap, indent);
        ElementsAngles(elems, gap, inner, sep);
      }
    case Object(members) =>
      if members != [] {
        var inner := indent + gap;
        var sep := Separator(gap, inner);
        assert NoAngles(inner) && NoAngles(sep);
        BracketedAngles('{', '}', SerializeMembers(members, gap, inner, sep, false), gap, indent);
        MembersAngles(members, gap, inner, sep);
      }
  }

  lemma {:induction false} ElementsAngles(elems: seq<JsonValue>, gap: string, indent: string, sep: string)
    requires elems != []
    requires NoAngles(gap) && NoAngles(indent) && NoAngles(sep)
    ensures NoAngles(SerializeElements(elems, gap, indent, sep, false))
            <==> forall i :: 0 <= i < |elems| ==> AngleFree(elems[i])
    decreases elems
  {
    SerializeAngles(elems[0], gap, indent);
    if |elems| > 1 {
      var head := Serialize(elems[0], gap, indent, false);
      var tail := SerializeElements(elems[1..], gap, indent, sep, false);
      NoAnglesAppend(head + sep, tail);
      NoAnglesAppend(head, sep);
      ElementsAngles(elems[1..], gap, indent, sep);
      assert forall i :: 1 <= i < |elems| ==> elems[i] == elems[1..][i - 1];
    }
  }

  lemma {:induction false} MemberAngles(m: (string, JsonValue), gap: string, indent: string)
    requires NoAngles(gap) && NoAngles(indent)
    ensures NoAngles(SerializeMember(m, gap, indent, false)) <==> NoAngles(m.0) && AngleFree(m.1)
    decreases m
  {
    var colon := if gap == [] then ":" else ": ";
    var key := Quote(m.0, false);
    var value := Serialize(m.1, gap, indent, false);
    assert SerializeMember(m, gap, indent, false) == key + colon + value;
    NoAnglesAppend(key + colon, value);
    NoAnglesAppend(key, colon);
    QuoteAngles(m.0);
    SerializeAngles(m.1, gap, indent);
  }

  lemma {:induction false} MembersAngles(members: seq<(string, JsonValue)>, gap: string, indent: string, sep: string)
    requires members != []
    requires NoAngles(gap) && NoAngles(indent) && NoAngles(sep)
    ensures NoAngles(SerializeMembers(members, gap, indent, sep, false))
            <==> forall i :: 0 <= i < |members| ==> NoAngles(members[i].0) && AngleFree(members[i].1)
    decreases members
  {
    MemberAngles(members[0], gap, indent);
    if |members| > 1 {
      var head := SerializeMember(members[0], gap, indent, false);
      var tail := SerializeMembers(members[1..], gap, indent, sep, false);
      NoAnglesAppend(head + sep, tail);
      NoAnglesAppend(head, sep);
      MembersAngles(members[1..], gap, indent, sep);
      assert forall i :: 1 <= i < |members| ==> members[i] == members[1..][i - 1];
    }
  }
}
