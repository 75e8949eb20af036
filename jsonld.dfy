/** What encodeJsonLD promises about the text it returns: no raw `<` or `>`,
    every other character of JSON.stringify's text kept in place, and valid
    JSON that parses back to the very data that was encoded. */
module JsonLdContract {
  import opened JsonValues
  import opened JsonStringify
  import opened LdJsonEncode
  import opened SafeJson
  import opened JsonParse
  import opened JsonRoundTrip

  /** The gap JSON.stringify uses for `pretty ? 2 : undefined`. */
  function Gap(pretty: bool): (gap: string)
    ensures gap == Spaces(if pretty then 2 else 0)
    ensures AllSpaces(gap) && NoAngles(gap)
    ensures (gap == []) == !pretty
  {
    if pretty then "  " else ""
  }

  /** Every replacement lands inside a string literal: the encoded text is
      what JSON.stringify writes once `<` and `>` inside keys and string
      values are quoted as `\u003c` and `\u003e`, the layout untouched. */
  lemma EncodeIsHtmlSafeSerialize(data: JsonValue, pretty: bool)
    requires IsJsonLDData(data)
    ensures EncodeJsonLD(data, pretty) == Serialize(data, Gap(pretty), "", true)
  {
    EscapeLdJsonPerChar(Stringify(data, if pretty then 2 else 0));
    EscapeSerialize(data, Gap(pretty), "");
  }

  /** JSON.parse(encodeJsonLD(data, pretty)) gives back `data`, in either layout. */
  lemma EncodeRoundTrip(data: JsonValue, pretty: bool)
    requires IsJsonLDData(data)
    ensures Decode(EncodeJsonLD(data, pretty)) == Some(data)
  {
    EncodeIsHtmlSafeSerialize(data, pretty);
    SerializeRoundTrip(data, Gap(pretty), true);
  }

  /** Different documents never share an encoding, whatever the layouts. */
  lemma EncodeInjective(a: JsonValue, pa: bool, b: JsonValue, pb: bool)
    requires IsJsonLDData(a) && IsJsonLDData(b)
    requires EncodeJsonLD(a, pa) == EncodeJsonLD(b, pb)
    ensures a == b
  {
    EncodeRoundTrip(a, pa);
    EncodeRoundTrip(b, pb);
  }

  /** `pretty` changes only the layout: both texts denote the same data. */
  lemma PrettySameData(data: JsonValue)
    requires IsJsonLDData(data)
    ensures Decode(EncodeJsonLD(data, true)) == Decode(EncodeJsonLD(data, false))
  {
    EncodeRoundTrip(data, true);
    EncodeRoundTrip(data, false);
  }

  /** Safe data is encoded as plain JSON.stringify would write it, and only
      safe data is: the output differs exactly when some key or string value
      holds a `<` or `>`. */
  lemma EncodeUnchangedIff(data: JsonValue, pretty: bool)
    requires IsJsonLDData(data)
    ensures EncodeJsonLD(data, pretty) == Stringify(data, if pretty then 2 else 0) <==> AngleFree(data)
  {
    EscapeLdJsonIdentityIff(Stringify(data, if pretty then 2 else 0));
    SerializeAngles(data, Gap(pretty), "");
  }

  /** The encoded text is five characters longer per `<` and per `>` that
      JSON.stringify wrote. */
  lemma EncodeLength(data: JsonValue, pretty: bool)
    requires IsJsonLDData(data)
    ensures var t := Stringify(data, if pretty then 2 else 0);
            |EncodeJsonLD(data, pretty)| == |t| + 5 * (Count(t, '<') + Count(t, '>'))
  {
    EscapeLdJsonLength(Stringify(data, if pretty then 2 else 0));
  }
}
