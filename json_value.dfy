/** JSON values as JSON.stringify sees them, and the shape of a JSON-LD document. */
module JsonValues {

  datatype Option<+T> = None | Some(value: T)

  /** A JSON value. Numbers are integers, written as plain decimals; this is
      JavaScript's form for integers of magnitude below 10^21 (and exact only
      up to 2^53). An object is its list of members in enumeration order,
      which is the order JSON.stringify writes them in. */
  datatype JsonValue =
    | Null
    | Bool(b: bool)
    | Number(n: int)
    | String(s: string)
    | Array(elems: seq<JsonValue>)
    | Object(members: seq<(string, JsonValue)>)

  /** The `JsonLDData` shape: a keyed object whose one required key is `@context`
      (its value is unconstrained). */
  predicate IsJsonLDData(v: JsonValue)
  {
    v.Object? && exists i :: 0 <= i < |v.members| && v.members[i].0 == "@context"
  }

  predicate IsAngle(c: char)
  {
    c == '<' || c == '>'
  }

  /** Text with no raw `<` or `>`. */
  predicate NoAngles(s: string)
  {
    forall i :: 0 <= i < |s| ==> !IsAngle(s[i])
  }

  /** JSON insignificant whitespace (section 2 of RFC 8259). */
  predicate IsWs(c: char)
  {
    c == ' ' || c == '\t' || c == '\n' || c == '\r'
  }

  predicate AllWs(s: string)
  {
    forall i :: 0 <= i < |s| ==> IsWs(s[i])
  }

  predicate AllSpaces(s: string)
  {
    forall i :: 0 <= i < |s| ==> s[i] == ' '
  }

  predicate IsDigit(c: char)
  {
    '0' <= c <= '9'
  }
}
