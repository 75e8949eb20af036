# Safe JSON-LD encoding, modelled and proved in Dafny

The library puts structured data into an HTML page as
`<script type="application/ld+json">…</script>`. Its core is one pure
function pair in `src/encode.ts`:

- `encodeJsonLD(data, pretty)` serialises the data with
  `JSON.stringify(data, null, pretty ? 2 : undefined)`, then escapes the text.
- `escapeLdJson(value)` does the escaping. It replaces every `<` by the six
  characters `\u003c` and then every `>` by `\u003e`. A `</script>` inside a
  string value therefore cannot close the element.

The model has these modules:

- `JsonValues` (`json_value.dfy`): the JSON value datatype and the
  `JsonLDData` shape, an object with an `@context` key.
- `JsonStringify` (`stringify.dfy`): `JSON.stringify` as section 25.5.2 of
  ECMA-262 defines it. That covers `QuoteJSONString`, the object and array
  layout with gap and indent, and the `space` argument capped at 10. It is
  written once with a `htmlSafe` flag: `false` is JSON.stringify itself, and
  `true` also writes `<` and `>` as their `\u` escapes.
- `LdJsonEncode` (`encode.dfy`): `escapeLdJson` as the source writes it, the
  two chained global replacements. Beside it sits a per-character reference
  escape, and `encodeJsonLD` is defined on top.
- `JsonParse` (`parse.dfy`): a JSON decoder playing the part of `JSON.parse`.
  It follows RFC 8259: whitespace (section 2), the literals, integers
  (section 6), strings with the escapes of section 7 including `\uXXXX` and
  surrogate pairs, arrays and objects. Unlike JSON.parse it rejects a `\u`
  escape of an unpaired surrogate.
- `SafeJson` (`safe_json.dfy`): escaping the serialised text equals
  serialising with `htmlSafe`. Every replacement therefore lands inside a
  string literal. The plain output holds an angle bracket exactly when some
  key or string value does.
- `JsonRoundTrip` (`roundtrip.dfy`): decoding any serialisation gives the
  value back, compact or indented, with either quoting.
- `JsonLdContract` (`jsonld.dfy`): what `encodeJsonLD` promises. As in the
  source's parameter type, `EncodeJsonLD` requires an object with an
  `@context` member.
- `JsonLayout` (`layout.dfy`): the compact output is a single line.
- `JsonLdVectors` (`vectors.dfy`): the exact outputs the repository's tests
  expect.

## Model

| member | source | states |
|---|---|---|
| LdJsonEncode.ReplaceAll | src/encode.ts:27 | A global replacement of `c` by `rep` leaves no `c` when `rep` holds none, and keeps every other character absent from `rep` present exactly when it was present in the input. |
| LdJsonEncode.EscapeLdJson | src/encode.ts:26-28 | No raw `<` or `>` survives in the escaped text, and any other character not in `\u003c` or `\u003e` occurs in it exactly when it occurs in the input. Its full behaviour is stated by the EscapeLdJson lemmas below. |
| LdJsonEncode.EncodeJsonLD | src/encode.ts:11-14 | The encoding of JSON-LD data, in either layout, holds no `<` or `>`, so no `</script>` can appear in it. The JsonLdContract lemmas below relate it to JSON.stringify and to decoding. |
| JsonStringify.QuoteChar | src/encode.ts:12 | A character is copied as itself exactly when it is at least U+0020, is neither `"` nor `\`, and is not an angle bracket under HTML-safe quoting. Otherwise it becomes an escape of at least two characters starting with a backslash. |
| JsonStringify.Serialize | src/encode.ts:12 | JSON.stringify's text of a value at a gap and indentation; its properties are SafeJson.EscapeSerialize, SafeJson.SerializeAngles, JsonRoundTrip.ValueRoundTrip and JsonLayout.CompactOneLine. |
| JsonStringify.Stringify | src/encode.ts:12 | `JSON.stringify(v, null, space)` with the space clamped to 10; its inverse is stated by JsonRoundTrip.StringifyRoundTrip. |
| JsonParse.Decode | test/encode.test.ts:14 | `JSON.parse` on a whole text, as the tests call it here and at line 29; JsonRoundTrip.SerializeRoundTrip and JsonLdContract.EncodeRoundTrip state that it inverts the encoder. |
| LdJsonEncode.EscapeLdJsonPerChar | src/encode.ts:27 | The two chained global replacements equal one per-character mapping. The `>` pass never changes the `\u003c` text the `<` pass inserted. |
| LdJsonEncode.EscapeLdJsonOrderIrrelevant | src/encode.ts:27 | Running the `>` replacement first gives the same text. |
| LdJsonEncode.EscapeLdJsonIdentityIff | src/encode.ts:26-28 | The escape returns its input unchanged if and only if the input holds no `<` or `>`. |
| LdJsonEncode.EscapeLdJsonLength | src/encode.ts:27 | Output length is input length plus 5 × (number of `<` + number of `>`). |
| LdJsonEncode.EscapeLdJsonAt | src/encode.ts:17 | Minimality, position by position. Input character i sits right after the escaped text of the characters before it. It is copied unchanged, except that `<` becomes exactly `\u003c` and `>` exactly `\u003e`. |
| LdJsonEncode.EscapeLdJsonIdempotent | src/encode.ts:26-28 | Escaping an already escaped text changes nothing. |
| LdJsonEncode.EscapeLdJsonNotInjective | src/encode.ts:27 | On raw text the escape is not injective: the six-character text `\u003c` and the text `<` escape to the same output. |
| SafeJson.EscapeSerialize | src/encode.ts:12-13 | Escaping JSON.stringify's text of any value, at any indentation, equals the serialisation that quotes `<` and `>` inside keys and strings as `\u` escapes. The structural text is untouched. |
| SafeJson.SerializeAngles | src/encode.ts:12 | JSON.stringify's text holds a `<` or `>` if and only if some key or string value of the data does. |
| JsonRoundTrip.QuoteBodyRoundTrip | src/encode.ts:12 | A quoted string parses back to the string itself, with either quoting, and leaves the text after the closing quote. |
| JsonRoundTrip.NumberRoundTrip | src/encode.ts:12 | A serialised integer parses back to itself. |
| JsonRoundTrip.ValueRoundTrip | src/encode.ts:12 | Any serialisation (compact or indented, either quoting, any leading whitespace) parses back to the value, before any text that cannot continue a number. |
| JsonRoundTrip.SerializeRoundTrip | src/encode.ts:12 | Decoding a whole serialisation yields the value, for every all-space gap and either quoting. |
| JsonRoundTrip.StringifyRoundTrip | src/encode.ts:12 | `JSON.parse(JSON.stringify(v, null, space))` is `v`, for every `space`. |
| JsonLdContract.EncodeIsHtmlSafeSerialize | src/encode.ts:11-14 | `encodeJsonLD(data, pretty)` is JSON.stringify's own layout with `<` and `>` quoted as `\u` escapes inside strings. So every replacement is a legal JSON string escape. |
| JsonLdContract.EncodeRoundTrip | src/encode.ts:11-14 | Decoding `encodeJsonLD(data, pretty)` yields `data` in both layouts, also when strings hold `<`, `>` or `"`. |
| JsonLdContract.EncodeInjective | src/encode.ts:11-14 | Two documents with equal encodings, under any layouts, are equal. |
| JsonLdContract.PrettySameData | src/encode.ts:12 | The pretty and the compact encoding denote the same data. |
| JsonLdContract.EncodeUnchangedIff | src/encode.ts:11-14 | `encodeJsonLD` equals the plain JSON.stringify text if and only if no key or string value holds a `<` or `>`. |
| JsonLdContract.EncodeLength | src/encode.ts:11-14 | The encoding is five characters longer per `<` and per `>` in JSON.stringify's text. |
| JsonLayout.CompactOneLine | src/encode.ts:12 | The compact serialisation of any value contains no line break, carriage return or tab. |
| JsonLayout.EncodeCompactOneLine | src/encode.ts:11-14 | `encodeJsonLD(data)` without `pretty` is a single line. |
| JsonLdVectors.Person | src/types.ts:11-14 | The test documents are JSON-LD data: objects carrying an `@context` key. |
| JsonLdVectors.PersonSafe | test/encode.test.ts:4-12 | A Person whose strings need no quoting or escaping is encoded as plain JSON.stringify writes it, and that text is given exactly. |
| JsonLdVectors.SafeVector | test/encode.test.ts:4-16 | For the "Espen Hovlandsdal" document the encoding is the exact expected text. It equals `JSON.stringify(input)`, and it decodes back to the input. |
| JsonLdVectors.InjectionQuote | test/react-jsonld.test.tsx:37 | Inside an escaped string, a script injection `</c><o>f("a")</c>` has every angle bracket escaped and both quotation marks backslashed; the rest is copied. |
| JsonLdVectors.XssVector | test/react-jsonld.test.tsx:33-47 | For the `</script><script>alert("xss")</script>` document the encoding is exactly the text the test expects. It is written as a concatenation of short literals. |

## Left out

- Floating-point numbers: numbers are integers, written in plain decimal. JavaScript does the same only for magnitudes below 10^21 (it writes `1e+21` and beyond in exponent form) and holds integers exactly only up to 2^53. Its float-to-string conversion is not modelled, and the decoder reads no fraction or exponent.
- JSON.stringify's failure modes and special values: cycles and BigInt (which throw), `toJSON`, and `undefined`, functions and symbols (which are dropped). A finite datatype has no counterpart for them.
- Property enumeration order: an object is its member list, in the order JSON.stringify visits it. JavaScript's rule of listing integer-like keys first is not modelled.
- Duplicate keys: the decoder returns the member list as read. `JSON.parse` would keep only the last of equal keys. Data from a JavaScript object has no duplicate keys.
- Lone surrogates: Dafny characters are Unicode scalar values, so no string holds a lone surrogate and JSON.stringify's branch that escapes one is not modelled. For the same reason `Decode` rejects a `\u` escape of an unpaired surrogate, where JSON.parse would accept it. No serialisation contains such an escape, so the round-trip results are unaffected.
- The `space` argument: only the numeric form is modelled, with 0 standing for `undefined`. String gaps and the `replacer` argument are not modelled, because the source never passes them.
- `$` patterns in `String.prototype.replace` replacement text are not modelled; the source's replacements contain none.
- XssVector: the expected text is written as a concatenation of short string literals rather than one literal. JSON.parse of this vector is covered by the general EncodeRoundTrip rather than restated.
- src/react-jsonld.tsx, the React component that injects the encoding through `dangerouslySetInnerHTML`: UI glue with no logic of its own.
- The test helpers: the schema.org validator call (network I/O with retries) and react-test-renderer glue. The tests serve only as sources of expected values.
- `index.ts`, which re-exports `encodeJsonLD`, is not part of this model.
