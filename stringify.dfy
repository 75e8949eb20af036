/** JSON.stringify(value, null, space) as ECMA-262 section 25.5.2 defines it
    (SerializeJSONProperty, QuoteJSONString, SerializeJSONObject,
    SerializeJSONArray), on the values of JsonValues. */
module JsonStringify {
  import opened JsonValues

  /** The decimal digit `d`. */
  function DigitChar(d: int): (c: char)
    requires 0 <= d < 10
    ensures IsDigit(c) && c as int - '0' as int == d
  {
    ('0' as int + d) as char
  }

  /** The lowercase hexadecimal digit `d`. */
  function HexDigit(d: int): (c: char)
    requires 0 <= d < 16
    ensures if d < 10 then IsDigit(c) else 'a' <= c <= 'f'
  {
    if d < 10 then DigitChar(d) else ('a' as int + d - 10) as char
  }

  /** Decimal form of a natural number, most significant digit first. */
  function NatToString(n: nat): string
  {
    if n < 10 then [DigitChar(n)] else NatToString(n / 10) + [DigitChar(n % 10)]
  }

  /** Number::toString for an integer-valued number of magnitude below 10^21:
      its plain decimal form. Larger magnitudes, which JavaScript writes in
      exponent form such as `1e+21`, are not distinguished here. */
  function IntToString(n: int): string
  {
    if n < 0 then "-" + NatToString(-n) else NatToString(n)
  }

  /** UnicodeEscape: backslash, `u` and four lowercase hexadecimal digits. */
  function UnicodeEscape(n: int): string
    requires 0 <= n < 0x1_0000
  {
    ['\\', 'u', HexDigit(n / 0x1000), HexDigit(n / 0x100 % 16), HexDigit(n / 0x10 % 16), HexDigit(n % 16)]
  }

  /** The text QuoteJSONString emits for one character. Dafny characters are
      Unicode scalar values, so the lone-surrogate case cannot arise. With
      `htmlSafe`, `<` and `>` are also written as `\u` escapes: this is the
      text that escaping the serialised JSON is shown to produce. */
  function QuoteChar(c: char, htmlSafe: bool): (r: string)
    ensures r == [c] <==> (c as int) >= 0x20 && c != '"' && c != '\\' && !(htmlSafe && IsAngle(c))
    ensures r != [c] ==> |r| >= 2 && r[0] == '\\'
  {
    if c == '"' then ['\\', '"']
    else if c == '\\' then ['\\', '\\']
    else if c as int == 0x08 then ['\\', 'b']
    else if c as int == 0x0C then ['\\', 'f']
    else if c == '\n' then ['\\', 'n']
    else if c == '\r' then ['\\', 'r']
    else if c == '\t' then ['\\', 't']
    else if (c as int) < 0x20 then UnicodeEscape(c as int)
    else if htmlSafe && IsAngle(c) then UnicodeEscape(c as int)
    else [c]
  }

  /** The characters between the quotes of QuoteJSONString(s). */
  function QuoteBody(s: string, htmlSafe: bool): string
  {
    if s == [] then [] else QuoteChar(s[0], htmlSafe) + QuoteBody(s[1..], htmlSafe)
  }

  /** QuoteJSONString. */
  function Quote(s: string, htmlSafe: bool): string
  {
    ['"'] + QuoteBody(s, htmlSafe) + ['"']
  }

  /** The separator between the entries of an object or array whose entries
      sit at indentation `inner`: a comma, plus a line break and `inner` when pretty. */
  function Separator(gap: string, inner: string): string
  {
    if gap == [] then "," else ",\n" + inner
  }

  /** The line break and indentation after the opening bracket of a
      non-empty object or array whose entries sit at `indent`: nothing when compact. */
  function Opening(gap: string, indent: string): string
  {
    if gap == [] then [] else ['\n'] + indent + gap
  }

  /** The line break and indentation before the closing bracket, back at `indent`. */
  function Closing(gap: string, indent: string): string
  {
    if gap == [] then [] else ['\n'] + indent
  }

  /** SerializeJSONObject and SerializeJSONArray around a non-empty joined
      `body`: compact, or each entry on its own line at `indent` + `gap` with
      the closing bracket back at `indent`. */
  function Bracketed(open: char, close: char, body: string, gap: string, indent: string): string
  {
    [open] + Opening(gap, indent) + body + Closing(gap, indent) + [close]
  }

  /** SerializeJSONProperty for value `v` at the current `indent`, with step `gap`. */
  function Serialize(v: JsonValue, gap: string, indent: string, htmlSafe: bool): string
    decreases v
  {
    match v
    case Null => "null"
    case Bool(b) => if b then "true" else "false"
    case Number(n) => IntToString(n)
    case String(s) => Quote(s, htmlSafe)
    case Array(elems) =>
      if elems == [] then "[]"
      else
        var inner := indent + gap;
        Bracketed('[', ']', SerializeElements(elems, gap, inner, Separator(gap, inner), htmlSafe), gap, indent)
    case Object(members) =>
      if members == [] then "{}"
      else
        var inner := indent + gap;
        Bracketed('{', '}', SerializeMembers(members, gap, inner, Separator(gap, inner), htmlSafe), gap, indent)
  }

  /** The array elements joined by `sep` (SerializeJSONArray's `partial` list). */
  function SerializeElements(elems: seq<JsonValue>, gap: string, indent: string, sep: string, htmlSafe: bool): string
    requires elems != []
    decreases elems
  {
    if |elems| == 1 then Serialize(elems[0], gap, indent, htmlSafe)
    else Serialize(elems[0], gap, indent, htmlSafe) + sep + SerializeElements(elems[1..], gap, indent, sep, htmlSafe)
  }

  /** One object member: quoted key, colon, a space when pretty, the value. */
  function SerializeMember(m: (string, JsonValue), gap: string, indent: string, htmlSafe: bool): string
    decreases m
  {
    Quote(m.0, htmlSafe) + (if gap == [] then ":" else ": ") + Serialize(m.1, gap, indent, htmlSafe)
  }

  /** The object members joined by `sep` (SerializeJSONObject's `partial` list). */
  function SerializeMembers(members: seq<(string, JsonValue)>, gap: string, indent: string, sep: string, htmlSafe: bool): string
    requires members != []
    decreases members
  {
    if |members| == 1 then SerializeMember(members[0], gap, indent, htmlSafe)
    else SerializeMember(members[0], gap, indent, htmlSafe) + sep + SerializeMembers(members[1..], gap, indent, sep, htmlSafe)
  }

  /** `n` spaces. */
  function Spaces(n: nat): (r: string)
    ensures |r| == n && AllSpaces(r)
  {
    if n == 0 then [] else [' '] + Spaces(n - 1)
  }

  /** JSON.stringify(v, null, space) for a numeric `space` (0 stands for
      `undefined`, which gives the same empty gap): the gap is min(10, space)
      spaces. */
  function Stringify(v: JsonValue, space: nat): string
  {
    Serialize(v, Spaces(if space < 10 then space else 10), "", false)
  }
}
