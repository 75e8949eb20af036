/** The safe JSON-LD encoder of src/encode.ts: serialise with JSON.stringify,
    then rewrite every `<` and `>` as a JSON unicode escape so that the text
    cannot close an enclosing `<script type="application/ld+json">` element. */
module LdJsonEncode {
  import opened JsonValues
  import opened JsonStringify

  /** The six characters that replace `<`: backslash, u, 0, 0, 3, c. */
  const LtEscape: string := ['\\', 'u', '0', '0', '3', 'c']
  /** The six characters that replace `>`: backslash, u, 0, 0, 3, e. */
  const GtEscape: string := ['\\', 'u', '0', '0', '3', 'e']

  /** `s.replace(/c/g, rep)` for a one-character pattern `c` and a replacement
      text holding no `$` substitution patterns: every occurrence of `c`,
      scanned left to right, becomes `rep`. */
  function ReplaceAll(s: string, c: char, rep: string): (r: string)
    ensures c !in rep ==> c !in r
    ensures forall d :: d != c && d !in rep ==> (d in r <==> d in s)
  {
    if s == [] then []
    else (if s[0] == c then rep else [s[0]]) + ReplaceAll(s[1..], c, rep)
  }

  /** escapeLdJson: the two chained global replacements of the source. */
  function EscapeLdJson(value: string): (r: string)
    ensures '<' !in r && '>' !in r
    ensures forall d :: !IsAngle(d) && d !in LtEscape && d !in GtEscape ==> (d in r <==> d in value)
  {
    ReplaceAll(ReplaceAll(value, '<', LtEscape), '>', GtEscape)
  }

  /** Reference definition of the escape: each character on its own. */
  function EscapeChar(c: char): string
  {
    if c == '<' then LtEscape else if c == '>' then GtEscape else [c]
  }

  function EscapeChars(s: string): string
  {
    if s == [] then [] else EscapeChar(s[0]) + EscapeChars(s[1..])
  }

  /** Number of occurrences of `c` in `s`. */
  function Count(s: string, c: char): nat
  {
    if s == [] then 0 else (if s[0] == c then 1 else 0) + Count(s[1..], c)
  }

  /** encodeJsonLD(data, pretty): JSON.stringify(data, null, pretty ? 2 : undefined),
      then escapeLdJson. `undefined` and 0 give the same empty gap. */
  function EncodeJsonLD(data: JsonValue, pretty: bool): (r: string)
    requires IsJsonLDData(data)
    ensures '<' !in r && '>' !in r
  {
    EscapeLdJson(Stringify(data, if pretty then 2 else 0))
  }

  // ---------------------------------------------------------------------
  // The chained replacements equal the per-character escape.

  lemma {:induction false} ReplaceAllAppend(a: string, b: string, c: char, rep: string)
    ensures ReplaceAll(a + b, c, rep) == ReplaceAll(a, c, rep) + ReplaceAll(b, c, rep)
  {
    if a == [] {
      assert a + b == b;
    } else {
      assert (a + b)[0] == a[0];
      assert (a + b)[1..] == a[1..] + b;
      ReplaceAllAppend(a[1..], b, c, rep);
    }
  }

  lemma {:induction false} ReplaceAllAbsent(s: string, c: char, rep: string)
    requires forall i :: 0 <= i < |s| ==> s[i] != c
    ensures ReplaceAll(s, c, rep) == s
  {
    if s != [] {
      ReplaceAllAbsent(s[1..], c, rep);
    }
  }

  /** The second replacement never touches what the first inserted (`<`
      holds no `>`), so the two passes are one per-character mapping. */
  lemma {:induction false} EscapeLdJsonPerChar(s: string)
    ensures EscapeLdJson(s) == EscapeChars(s)
  {
    if s != [] {
      var head := if s[0] == '<' then LtEscape else [s[0]];
      var tail := ReplaceAll(s[1..], '<', LtEscape);
      assert ReplaceAll(s, '<', LtEscape) == head + tail;
      ReplaceAllAppend(head, tail, '>', GtEscape);
      if s[0] == '<' {
        ReplaceAllAbsent(LtEscape, '>', GtEscape);
      } else {
        assert ReplaceAll(head, '>', GtEscape) == (if s[0] == '>' then GtEscape else [s[0]]) + ReplaceAll([], '>', GtEscape);
      }
      EscapeLdJsonPerChar(s[1..]);
    }
  }

  /** The order of the two passes does not matter. */
  lemma {:induction false} EscapeLdJsonOrderIrrelevant(s: string)
    ensures EscapeLdJson(s) == ReplaceAll(ReplaceAll(s, '>', GtEscape), '<', LtEscape)
  {
    EscapeLdJsonPerChar(s);
    SwappedPerChar(s);
  }

  lemma {:induction false} SwappedPerChar(s: string)
    ensures ReplaceAll(ReplaceAll(s, '>', GtEscape), '<', LtEscape) == EscapeChars(s)
  {
    if s != [] {
      var head := if s[0] == '>' then GtEscape else [s[0]];
      var tail := ReplaceAll(s[1..], '>', GtEscape);
      assert ReplaceAll(s, '>', GtEscape) == head + tail;
      ReplaceAllAppend(head, tail, '<', LtEscape);
      if s[0] == '>' {
        ReplaceAllAbsent(GtEscape, '<', LtEscape);
      } else {
        assert ReplaceAll(head, '<', LtEscape) == (if s[0] == '<' then LtEscape else [s[0]]) + ReplaceAll([], '<', LtEscape);
      }
      SwappedPerChar(s[1..]);
    }
  }

  // ---------------------------------------------------------------------
  // Properties of the per-character escape.

  lemma {:induction false} EscapeCharsAppend(a: string, b: string)
    ensures EscapeChars(a + b) == EscapeChars(a) + EscapeChars(b)
  {
    if a == [] {
      assert a + b == b;
    } else {
      assert (a + b)[0] == a[0];
      assert (a + b)[1..] == a[1..] + b;
      EscapeCharsAppend(a[1..], b);
    }
  }

  lemma {:induction false} EscapeCharsIdentity(s: string)
    requires NoAngles(s)
    ensures EscapeChars(s) == s
  {
    if s != [] {
      assert !IsAngle(s[0]);
      EscapeCharsIdentity(s[1..]);
      assert s == [s[0]] + s[1..];
    }
  }

  lemma {:induction false} EscapeCharsLength(s: string)
    ensures |EscapeChars(s)| == |s| + 5 * (Count(s, '<') + Count(s, '>'))
  {
    if s != [] {
      EscapeCharsLength(s[1..]);
    }
  }

  lemma {:induction false} CountAppend(a: string, b: string, c: char)
    ensures Count(a + b, c) == Count(a, c) + Count(b, c)
  {
    if a == [] {
      assert a + b == b;
    } else {
      assert (a + b)[0] == a[0];
      assert (a + b)[1..] == a[1..] + b;
      CountAppend(a[1..], b, c);
    }
  }

  /** Escaping changes the text exactly when it holds a `<` or `>`. */
  lemma EscapeLdJsonIdentityIff(s: string)
    ensures EscapeLdJson(s) == s <==> NoAngles(s)
  {
    EscapeLdJsonPerChar(s);
    EscapeCharsIdentityIff(s);
  }

  lemma EscapeCharsIdentityIff(s: string)
    ensures EscapeChars(s) == s <==> NoAngles(s)
  {
    if NoAngles(s) {
      EscapeCharsIdentity(s);
    } else {
      var i :| 0 <= i < |s| && IsAngle(s[i]);
      assert s == s[..i] + [s[i]] + s[i + 1..];
      CountAppend(s[..i] + [s[i]], s[i + 1..], s[i]);
      CountAppend(s[..i], [s[i]], s[i]);
      EscapeCharsLength(s);
    }
  }

  /** Output length: five more characters for every `<` and every `>`. */
  lemma EscapeLdJsonLength(s: string)
    ensures |EscapeLdJson(s)| == |s| + 5 * (Count(s, '<') + Count(s, '>'))
  {
    EscapeLdJsonPerChar(s);
    EscapeCharsLength(s);
  }

  /** Minimality, position by position: character `i` of the input reappears,
      as itself or as its six-character escape, right after the escaped text
      of the characters before it. Together with the length this fixes the
      output completely. */
  lemma EscapeLdJsonAt(s: string, i: nat)
    requires i < |s|
    ensures var p := i + 5 * (Count(s[..i], '<') + Count(s[..i], '>'));
            var e := EscapeChar(s[i]);
            p + |e| <= |EscapeLdJson(s)| && EscapeLdJson(s)[p..p + |e|] == e
  {
    EscapeLdJsonPerChar(s);
    EscapeCharsAt(s, i);
    OccursAtEqual(EscapeChars(s), EscapeLdJson(s), i + 5 * (Count(s[..i], '<') + Count(s[..i], '>')), EscapeChar(s[i]));
  }

  lemma OccursAtEqual(w: string, w': string, p: nat, e: string)
    requires w == w' && OccursAt(w, p, e)
    ensures p + |e| <= |w'| && w'[p..p + |e|] == e
  {
  }

  /** `e` occurs in `whole` starting at position `p`. */
  predicate OccursAt(whole: string, p: nat, e: string)
  {
    p + |e| <= |whole| && whole[p..p + |e|] == e
  }

  lemma EscapeCharsAt(s: string, i: nat)
    requires i < |s|
    ensures OccursAt(EscapeChars(s), i + 5 * (Count(s[..i], '<') + Count(s[..i], '>')), EscapeChar(s[i]))
  {
    EscapeCharsSplit(s, i);
    EscapeCharsLength(s[..i]);
    Middle(EscapeChars(s), EscapeChars(s[..i]), EscapeChar(s[i]), EscapeChars(s[i + 1..]),
           i + 5 * (Count(s[..i], '<') + Count(s[..i], '>')));
  }

  lemma EscapeCharsSplit(s: string, i: nat)
    requires i < |s|
    ensures EscapeChars(s) == EscapeChars(s[..i]) + (EscapeChar(s[i]) + EscapeChars(s[i + 1..]))
  {
    SplitAt(s, i);
    EscapeCharsAppend(s[..i], s[i..]);
    EscapeCharsCons(s[i..], s[i], s[i + 1..]);
  }

  lemma SplitAt(s: string, i: nat)
    requires i < |s|
    ensures s == s[..i] + s[i..] && s[i..] == [s[i]] + s[i + 1..]
  {
  }

  lemma EscapeCharsCons(t: string, c: char, u: string)
    requires t == [c] + u
    ensures EscapeChars(t) == EscapeChar(c) + EscapeChars(u)
  {
    assert t[0] == c && t[1..] == u;
  }

  lemma Middle(whole: string, a: string, b: string, c: string, p: nat)
    requires whole == a + (b + c) && |a| == p
    ensures OccursAt(whole, p, b)
  {
  }

  /** Escaping twice is escaping once: nothing is double-escaped. */
  lemma EscapeLdJsonIdempotent(s: string)
    ensures EscapeLdJson(EscapeLdJson(s)) == EscapeLdJson(s)
  {
    EscapeLdJsonIdentityIff(EscapeLdJson(s));
  }

  /** On raw text the escape is not injective: a literal `\u003c` and a `<`
      escape alike. Only inside JSON strings, where `\` is itself escaped,
      can the original be recovered. */
  lemma EscapeLdJsonNotInjective()
    ensures LtEscape != "<" && EscapeLdJson(LtEscape) == EscapeLdJson("<")
  {
    assert NoAngles(LtEscape);
    EscapeLdJsonIdentityIff(LtEscape);
    EscapeLdJsonPerChar("<");
    assert EscapeChars("<") == EscapeChar('<') + EscapeChars([]);
  }
}
