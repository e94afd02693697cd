# plist value model and encoders

A model of `include/plist.hpp`, a header-only C++ library for property lists. It has three parts:

- **The value** (`plist::Value`). A variant holding one of eight alternatives: Dictionary, Array, String, Real, Integer, Boolean, Data and Date. A default-constructed value is an empty Dictionary.
  - `is<T>` asks which alternative is active.
  - `as<T>` reads it back. `bool` and the arithmetic types coerce between Boolean, Real and Integer. The other types must match exactly, otherwise `TypeError`.
  - The subscripts differ by constness. The mutable dictionary subscript inserts a default entry; the const one raises `RangeError` for a missing key. The mutable array subscript grows the array; the const one raises `RangeError` past the end.
  - `hasMember`, `isEmpty`, `getSize`, `resize` and both `pushBack` overloads fail with `TypeError` on the wrong alternative.
- **The text encoder.** It writes the "ASCII" (OpenStep-style) plist:
  - a `// !$*UTF8*$!` preamble;
  - dictionaries in ascending key order with a mandatory `;` after each entry;
  - arrays with `,` between elements;
  - strings bare when every character is alphanumeric or one of `_ $ / : . -`, quoted with `"` and `\` escaped otherwise, and `""` when empty;
  - numbers in decimal, `YES`/`NO`, and data as upper-case hex pairs inside `<...>`.
- **The XML encoder.** It writes the XML declaration, the Apple DOCTYPE and the `<plist>` element:
  - `<`, `>` and `&` are escaped in strings and keys;
  - Data is Base64-encoded, with `=` padding.
- **Both encoders:**
  - take a "whitespaces" (pretty) flag that adds line breaks and tab indentation;
  - refuse a Date at any depth.

Modules:

| module | file | contents |
|---|---|---|
| `PlistValue` | `value.dfy` | the `Value` datatype, `is`, the `as` accessors, the read-only container operations |
| `PlistValueObject` | `value_object.dfy` | the class `MutableValue`, whose field `value` is the active alternative. Its methods are the assignments, the mutable subscripts, `resize` and `pushBack`. |
| `Sequences` | `sequences.dfy` | generic facts about sequence concatenation and slicing, used by the encoders' proofs |
| `KeyOrder` | `key_order.dfy` | `std::map`'s key order, and the ascending key sequence a dictionary is visited in |
| `Decimal` | `decimal.dfy` | `std::to_string` of an integer |
| `TextEncoder` | `text_encoder.dfy` | the text encoder, as specification functions (`TextOf`, `Document`) and as the imperative appending methods proved against them |
| `Base64` | `base64.dfy` | the Base64 loop of the XML encoder, proved against `Base64` |
| `XmlEncoder` | `xml_encoder.dfy` | the XML encoder, as functions (`XmlOf`, `XmlDocument`) and methods |
| `PlistEncode` | `encode.dfy` | the `encode(value, format, whitespaces)` entry point, and properties that span both formats |

The decoders in the model are partners for the round-trip lemmas. They are not part of the library:

- `TextEncoder.Unescaped` and `TextEncoder.HexValue`;
- `XmlEncoder.XmlUnescaped`;
- `Base64.Decode`;
- `Decimal.ParseInteger`.

## Model

| member | source | states |
|---|---|---|
| PlistValue.KindOf | include/plist.hpp:355 | the category of the active alternative of the variant |
| PlistValue.Is | include/plist.hpp:99-148 | `is<T>()`: the active alternative belongs to the category asked about; `NumericReadBack` and `ExactReadBack` state it for each constructor |
| PlistValue.ContainsDate | include/plist.hpp:475-479 | a Date occurs at some depth of the tree: the condition under which both encoders throw (`PlistEncode.FailsIffDate`) |
| PlistValue.Truncate | include/plist.hpp:169-170 | `static_cast<int64_t>(double)`: an infinity or NaN gives None; zero gives 0; a non-zero result comes from a non-zero double; the result has the sign of the sign bit |
| PlistValue.TruncateTowardZero | include/plist.hpp:169-170 | a result is the floor of the magnitude `Numerator(d) / Denominator(d)` read from the IEEE 754 bits (truncation toward zero). For a finite double, None holds exactly when that floor, signed, is outside `[-2^63, 2^63)`: the undefined conversions. |
| PlistValue.AsBool | include/plist.hpp:150-161 | succeeds exactly on Boolean, Real and Integer, and otherwise raises TypeError. The result is false exactly for `false`, integer 0 and a zero double (either sign). |
| PlistValue.AsInteger | include/plist.hpp:163-177 | succeeds exactly on Real, Integer and Boolean, and otherwise raises TypeError; the values are stated by `NumericReadBack` |
| PlistValue.CoercionsAgree | include/plist.hpp:150-177 | `as<bool>` and `as<int64_t>` succeed on the same values. A non-zero integer reading is a true boolean reading. Except for Real, the boolean reading is "integer reading != 0". |
| PlistValue.NumericReadBack | include/plist.hpp:150-177 | a Boolean b reads as b and as 1/0. An Integer i reads as i and as `i != 0`. A double reads as "not zero" and as its truncation. |
| PlistValue.IntegerBooleanExamples | include/plist.hpp:150-177 | integer 0 reads as false, integer 1 as true, and Boolean true as 1 |
| PlistValue.HalfExample | include/plist.hpp:155-170 | 0.5 reads as true but truncates to 0 |
| PlistValue.MinusTwoAndAHalfExample | include/plist.hpp:169-170 | -2.5 reads as the integer -2 (toward zero, not -3) |
| PlistValue.AsString | include/plist.hpp:203-216 | Ok exactly for a String, and then the value is `String(result)`; otherwise TypeError |
| PlistValue.AsDictionary | include/plist.hpp:203-216 | Ok exactly for a Dictionary, and then the value is `Dictionary(result)`; otherwise TypeError |
| PlistValue.AsArray | include/plist.hpp:203-216 | Ok exactly for an Array, and then the value is `Array(result)`; otherwise TypeError |
| PlistValue.AsData | include/plist.hpp:203-216 | Ok exactly for Data, and then the value is `Data(result)`; otherwise TypeError |
| PlistValue.AsDate | include/plist.hpp:203-216 | Ok exactly for a Date, and then the value is `Date(result)`; otherwise TypeError |
| PlistValue.ExactReadBack | include/plist.hpp:37-47 | a value constructed from a string, dictionary, array, blob or time point is of that category, reads back unchanged through its own exact accessor, and makes each of the four other exact accessors fail |
| PlistValue.HasMember | include/plist.hpp:250-256 | Ok exactly on a Dictionary, and then true iff the key is present; otherwise TypeError |
| PlistValue.MemberAt | include/plist.hpp:275-286 | const `[key]`: a present key gives its stored entry, and Ok gives only that. RangeError iff a Dictionary lacks the key. TypeError iff not a Dictionary. |
| PlistValue.MemberAtAgreesWithHasMember | include/plist.hpp:250-286 | const `[key]` succeeds iff `hasMember` is true, and raises RangeError iff `hasMember` is false |
| PlistValue.ElementAt | include/plist.hpp:299-310 | const `[index]`: Ok gives the element at that index. TypeError iff not an Array. |
| PlistValue.ElementAtRange | include/plist.hpp:299-326 | const `[index]` raises RangeError iff `index >= getSize()`, and succeeds iff `index < getSize()` |
| PlistValue.GetSize | include/plist.hpp:320-326 | Ok exactly on an Array, with the number of its elements; otherwise TypeError |
| PlistValue.IsEmpty | include/plist.hpp:312-318 | Ok exactly on an Array, true iff it has no elements; otherwise TypeError |
| PlistValue.IsEmptyIsSizeZero | include/plist.hpp:312-326 | `isEmpty()` fails exactly when `getSize()` does, and otherwise equals `getSize() == 0` |
| PlistValueObject.WrapInt64 | include/plist.hpp:74-79 | the integral-to-`int64_t` cast is congruent to its input modulo 2^64, and keeps in-range values |
| PlistValueObject.InsertMember | include/plist.hpp:262-268 | the key is present afterwards. An existing entry leaves the map unchanged. A missing key adds exactly one entry, holding an empty Dictionary. Other keys keep their values. |
| PlistValueObject.Resized | include/plist.hpp:331 | `std::vector::resize`: the new length is n; the common prefix is kept; new slots hold the default value |
| PlistValueObject.Extended | include/plist.hpp:292 | the array grows to `index + 1` only when the index is past the end; the old elements stay as a prefix; new slots are default values; the index is in range afterwards |
| PlistValueObject.ExtendedIdentity | include/plist.hpp:292 | the mutable index subscript leaves the array unchanged iff the index is in range |
| PlistValueObject.MutableValue.constructor | include/plist.hpp:36 | a default value is an empty Dictionary |
| PlistValueObject.MutableValue.FromValue | include/plist.hpp:37-47 | the converting constructors store the given alternative |
| PlistValueObject.MutableValue.Assign | include/plist.hpp:49-97 | assignment replaces the alternative and its payload |
| PlistValueObject.MutableValue.AssignIntegral | include/plist.hpp:74-79 | assigning an integral stores an Integer congruent to it modulo 2^64 |
| PlistValueObject.MutableValue.Member | include/plist.hpp:258-273 | mutable `[key]` on a Dictionary returns the entry; for a missing key it first inserts a default, and `hasMember` is true afterwards. Otherwise TypeError and nothing changes. |
| PlistValueObject.MutableValue.Element | include/plist.hpp:288-297 | mutable `[index]` on an Array grows it as `Extended` and returns that slot. Otherwise TypeError and nothing changes. |
| PlistValueObject.MutableValue.Resize | include/plist.hpp:328-334 | the Array becomes `Resized(old, n)`; otherwise TypeError and nothing changes |
| PlistValueObject.MutableValue.PushBack | include/plist.hpp:336-342 | appends to an Array; otherwise TypeError and nothing changes |
| PlistValueObject.MutableValue.PushBackByte | include/plist.hpp:344-350 | appends a byte to Data; otherwise TypeError and nothing changes |
| KeyOrder.KeyLess | include/plist.hpp:364 | `std::string` `operator<` as `std::map` uses it: lexicographic by character code, with a proper prefix first. Its properties are the four lemmas below. |
| KeyOrder.KeyLessIrreflexive | include/plist.hpp:364 | the `std::string` order that `std::map` keys use is irreflexive |
| KeyOrder.KeyLessAsymmetric | include/plist.hpp:364 | the key order is asymmetric |
| KeyOrder.KeyLessTransitive | include/plist.hpp:364 | the key order is transitive |
| KeyOrder.KeyLessTotal | include/plist.hpp:364 | any two distinct keys are ordered |
| KeyOrder.SortedKeys | include/plist.hpp:416 | the keys visited by the range-for over a dictionary: one per entry, each a key of the map |
| KeyOrder.SortedKeysComplete | include/plist.hpp:416 | every key of the map is visited |
| KeyOrder.SortedKeysSorted | include/plist.hpp:416 | keys are visited in strictly ascending order |
| KeyOrder.SortedKeysUnique | include/plist.hpp:518 | any strictly ascending listing of exactly the map's keys is the visiting order, so both encoders visit the same sequence |
| Decimal.IntegerText | include/plist.hpp:456 | `std::to_string` of an integer is non-empty, starts with '-' iff the integer is negative, and its digits have no leading zero (a lone `0` aside) |
| Decimal.IntegerTextRoundTrip | include/plist.hpp:456 | reading the decimal text back gives the integer |
| TextEncoder.Escaped | include/plist.hpp:400-404 | the escaping loop's output: never shorter than the input; `EscapedRoundTrip` states it reads back |
| TextEncoder.QuotedText | include/plist.hpp:383-409 | the rendering of a string or key; `StringRendering` and `UnquotedIff` state the quoting rule |
| TextEncoder.HexText | include/plist.hpp:466-472 | the hex digits of a blob; `HexTextLayout` states its layout |
| TextEncoder.TextOf | include/plist.hpp:411-482 | the text of a Date-free value at a nesting depth; `EncodeValue` is proved equal to it, and `DictionaryText` and the `PlistEncode` lemmas state its shape |
| TextEncoder.Document | include/plist.hpp:375-380 | the text document, or UnsupportedError iff a Date occurs; `PlistEncode.FailsIffDate` and `TextPreamble` state it |
| TextEncoder.Tabs | include/plist.hpp:419 | `insert(end, n, '\t')` adds exactly n tab characters |
| TextEncoder.ScanSpecialChars | include/plist.hpp:387-397 | the scanning loop reports whether some character lies outside letters, digits and `_ $ / : . -` |
| TextEncoder.EscapedRoundTrip | include/plist.hpp:400-404 | the escaped text reads back, strictly, as the string: every `"` and `\` is preceded by a backslash, so no bare `"` remains |
| TextEncoder.StringRendering | include/plist.hpp:383-409 | empty gives `""`; without special characters the string is written as is; otherwise `"` + escaped + `"`, whose inside holds no bare `"` and reads back as the string |
| TextEncoder.BareQuoteRejected | include/plist.hpp:402 | the strict reading rejects a bare `"` (so the round trip would fail had `"` not been escaped), and reads the escaped `a"b` back |
| TextEncoder.UnquotedIff | include/plist.hpp:385-399 | a string is written unchanged iff it is non-empty and has no special character |
| TextEncoder.EncodeEscaped | include/plist.hpp:400-404 | the escaping loop appends `Escaped(s)` |
| TextEncoder.EncodeString | include/plist.hpp:383-409 | appends the rendering `StringRendering` describes |
| TextEncoder.HexDigitValue | include/plist.hpp:469-471 | each hex digit is `0-9` or `A-F`, and reads back as its nibble |
| TextEncoder.HexPairValue | include/plist.hpp:470-471 | the two digits of a byte are its high and low nibble |
| TextEncoder.HexTextLength | include/plist.hpp:466-472 | hex text is 2n characters compact, 3n-1 pretty, and empty for no bytes |
| TextEncoder.HexTextPairs | include/plist.hpp:466-472 | byte i is written as its pair at offset 2i (compact) or 3i (pretty) |
| TextEncoder.HexTextSpaces | include/plist.hpp:468 | in pretty mode a space separates consecutive pairs |
| TextEncoder.HexTextLayout | include/plist.hpp:462-474 | the full hex layout: length, pair positions and separators |
| TextEncoder.EncodeData | include/plist.hpp:462-474 | the data loop appends `<` + hex text + `>` |
| TextEncoder.DateFreeDictionary | include/plist.hpp:416-426 | a dictionary whose every entry is Date-free is Date-free |
| TextEncoder.DictionaryText | include/plist.hpp:413-430 | a dictionary is `{`, its entries in key order, pretty newline and tabs, then `}` |
| TextEncoder.EncodeEntryHead | include/plist.hpp:418-423 | the key head: pretty newline and tabs, the rendered key, then `=` (with spaces in pretty mode) |
| TextEncoder.EncodeEntry | include/plist.hpp:418-425 | an entry succeeds iff the child is Date-free, and is the head, the child's text and `;` |
| TextEncoder.EncodeDictionary | include/plist.hpp:413-430 | succeeds iff the dictionary is Date-free, with the text `TextOf` gives |
| TextEncoder.EncodeItem | include/plist.hpp:437-440 | an element is preceded by `,` unless it is first, then the pretty newline and tabs; it succeeds iff the child is Date-free |
| TextEncoder.EncodeArray | include/plist.hpp:431-445 | succeeds iff the array is Date-free, with the text `TextOf` gives |
| TextEncoder.EncodeValue | include/plist.hpp:411-482 | succeeds iff the value holds no Date, and then produces `TextOf(v)` |
| TextEncoder.Encode | include/plist.hpp:375-380 | the text document is the preamble followed by the value, or UnsupportedError |
| Base64.SextetsOf | include/plist.hpp:577-604 | the table positions the Base64 loop looks up, with 64 for padding; `SextetsShape` and `SextetsRoundTrip` state them |
| Base64.Base64 | include/plist.hpp:577-605 | the Base64 text of a blob; `Base64Length`, `Base64Padding` and `Base64RoundTrip` state it |
| Base64.SymbolRoundTrip | include/plist.hpp:570-576 | each of the 64 table characters (and `=`) maps back to its position |
| Base64.MasksHigh | include/plist.hpp:584-585 | the shift-and-mask expressions of the first two sextets are `/4`, `%4*16` and `/16` |
| Base64.MasksLow | include/plist.hpp:586-587 | the shift-and-mask expressions of the last two sextets are `%16*4`, `/64` and `%64` |
| Base64.SextetsShape | include/plist.hpp:577-604 | four symbols per started group of three bytes: all from the alphabet except the last `(3 - n % 3) % 3`, which are padding |
| Base64.Base64Length | include/plist.hpp:577-605 | the encoding of n bytes has 4 * ceil(n / 3) characters |
| Base64.Base64Padding | include/plist.hpp:592-605 | exactly the last `(3 - n % 3) % 3` characters are `=`, and all others are alphabet characters |
| Base64.SextetsRoundTrip | include/plist.hpp:577-604 | the sextets regroup to the encoded bytes |
| Base64.Base64RoundTrip | include/plist.hpp:577-605 | decoding the Base64 text gives back the bytes |
| Base64.TwoByteExample | include/plist.hpp:592-605 | bytes `[0, 1]` encode as `AAE=` |
| Base64.EncodeGroup | include/plist.hpp:582-588 | a full group of three bytes appends its four symbols |
| Base64.EncodeTail | include/plist.hpp:592-605 | one or two remaining bytes append their symbols and the padding |
| Base64.EncodeBase64 | include/plist.hpp:577-605 | the whole loop appends `Base64(bytes)` |
| XmlEncoder.XmlEscaped | include/plist.hpp:503-510 | escaped character data, never shorter than the input; `XmlEscapedRoundTrip` and `XmlEscapedNoMarkup` state it |
| XmlEncoder.XmlOf | include/plist.hpp:512-615 | the XML element of a Date-free value at a depth; `EncodeValue` is proved equal to it, and `DictionaryXml`, `DictionaryCloseTabs` and `ElementDelimited` state its shape |
| XmlEncoder.XmlDocument | include/plist.hpp:488-500 | the XML document, or UnsupportedError iff a Date occurs; `PlistEncode.XmlFrame` states its frame |
| XmlEncoder.EncodeXmlEscaped | include/plist.hpp:503-510 | the escaping loop appends `XmlEscaped(s)` |
| XmlEncoder.XmlEscapedAppend | include/plist.hpp:505-509 | escaping works character by character: it distributes over concatenation |
| XmlEncoder.XmlEscapedRoundTrip | include/plist.hpp:503-510 | replacing `&lt;`, `&gt;` and `&amp;` back gives the escaped string |
| XmlEncoder.XmlEscapedNoMarkup | include/plist.hpp:503-510 | escaped text contains no `<` or `>` |
| XmlEncoder.DictionaryXml | include/plist.hpp:514-531 | a dictionary is `<dict>`, a pretty newline, its entries in key order, `level` tabs, then `</dict>` |
| XmlEncoder.DictionaryCloseTabs | include/plist.hpp:529-530 | `</dict>` is preceded by `level` tabs in compact mode too |
| XmlEncoder.ElementDelimited | include/plist.hpp:512-606 | every element's text begins with `<` and ends with `>` |
| XmlEncoder.EncodeKeyHead | include/plist.hpp:520-525 | the key line: indentation, `<key>`, the escaped key, `</key>`, then a newline and indentation |
| XmlEncoder.EncodeEntry | include/plist.hpp:520-527 | an entry succeeds iff the child is Date-free, and is the key head, the child's element and a pretty newline |
| XmlEncoder.EncodeDictionary | include/plist.hpp:514-531 | succeeds iff the dictionary is Date-free, with the text `XmlOf` gives |
| XmlEncoder.EncodeItem | include/plist.hpp:538-540 | an element is indentation, its element and a pretty newline; it succeeds iff Date-free |
| XmlEncoder.EncodeArray | include/plist.hpp:532-544 | succeeds iff the array is Date-free, with the text `XmlOf` gives |
| XmlEncoder.EncodeValue | include/plist.hpp:512-615 | succeeds iff the value holds no Date, and then produces `XmlOf(v)` |
| XmlEncoder.Encode | include/plist.hpp:488-500 | the declaration, DOCTYPE and `<plist>` lines, the value, then `</plist>`; or UnsupportedError |
| PlistEncode.Encoded | include/plist.hpp:618-622 | the document `encode` returns for each format; `FailsIffDate` states when it fails |
| PlistEncode.Encode | include/plist.hpp:618-622 | `encode` gives the document of the chosen format |
| PlistEncode.FailsIffDate | include/plist.hpp:475-479 | in either format and mode, encoding fails iff a Date occurs at any depth, and then with UnsupportedError |
| PlistEncode.NestedDateFails | include/plist.hpp:608-612 | a Date inside a dictionary inside an array makes the whole document fail |
| PlistEncode.TextPreamble | include/plist.hpp:377 | a text document starts with `// !$*UTF8*$!` and a newline |
| PlistEncode.XmlFrame | include/plist.hpp:490-498 | an XML document starts with the XML declaration and ends with `</plist>` |
| PlistEncode.DefaultText | include/plist.hpp:413-429 | a default value encodes in compact text mode as the preamble and `{}` |
| PlistEncode.PrettyEmptyDictionary | include/plist.hpp:427-429 | an empty dictionary in pretty text mode is `{`, a newline, `level` tabs, then `}` |
| PlistEncode.PrettyArrayCommas | include/plist.hpp:437-439 | in a pretty text array, the comma comes before the newline and the indentation of the next element |

## Left out

- `std::to_string(double)` (lines 452 and 554) is a parameter, `realText`, and not a definition. Formatting a binary64 value in `%f` style is outside the model.
- The numeric `as<T>` is modelled for `bool` and `std::int64_t` only. The converting constructors and assignments are modelled for `bool`, integral types (through `WrapInt64`) and `double`. `as<double>` (including `static_cast<double>` of an integer and a Boolean read as 1.0 or 0.0), `float` and `long double` are not modelled.
- PlistValue.AsInteger: requires that a Real's conversion to `int64_t` be defined. The C++ cast of infinity, NaN or an out-of-range double is undefined behaviour, so there is no result to state.
- Date is an opaque time point. Nothing in the library computes with it, and both encoders refuse it.
- `as<const char*>` (194-201) and the `const char*` constructor and assignment are not modelled separately. They behave as the `std::string` ones, and a C string's lifetime is outside the model.
- `begin`/`end` (218-248) are left out. Iterator validity has no counterpart in the model; iteration visits the Array's `elements` in order.
- The mutable subscripts return a reference through which the caller writes. In the model they return the slot's value, and writes go through `Assign` of the updated container. Aliasing between such references is not modelled.
- `getValue` (352) is left out, since the model reads the datatype directly.
- `std::size_t` overflow of `index + 1` (292) and allocation failure in `resize` are not modelled, because indices and sizes are unbounded `nat`.
- The "Unsupported format" throws (480-481, 613-614, 624) are not modelled. They cannot be reached: the variant's alternatives and the `Format` values are all handled.
- On a Date the source throws with the output buffer partly written. The model's encoders return a flag and no text, because `encode` never returns that buffer.
- Each recursive encoder method returns the text of its node rather than appending to one shared buffer. `Base64.EncodeBase64` and the string and data loops do append to a `result` string, as the source does.
- `std::string` characters are modelled as Dafny `char`, and `std::byte` as a number in `0..255`. Character-set and signedness questions of `char` are not modelled.
- The lookup tables `digits` (469) and `chars` (570-576) are modelled as the arithmetic functions `TextEncoder.HexDigit` and `Base64.Base64Char`. They give the table entry at each index.
- Concurrency is not modelled. The library has no synchronisation, and encoding is a single-threaded depth-first traversal.
- The library tests and any parser are left out. The library has no parser; the decoders here exist only to state the round trips.

## Notes on the code as written

- In the XML encoder, the tabs before `</dict>` (line 529) are not guarded by the whitespaces flag, unlike every other indentation. A nested dictionary in compact mode therefore gets `level` tab characters before its `</dict>`. This is modelled as written; see `XmlEncoder.DictionaryCloseTabs`.
- In pretty text mode an empty dictionary still gets a newline and its indentation before `}` (`PlistEncode.PrettyEmptyDictionary`). An empty XML array in pretty mode likewise gets a newline after `<array>`.
