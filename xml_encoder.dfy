/** The XML property-list encoder.

    As in the text encoder, a set of functions gives the XML of every
    Date-free value, and a set of methods builds it with the library's
    loops: the string and Data encoders take the output buffer as `result`
    and hand it back as `out`, and the recursive value encoders return the
    text they append. Indentation uses the text encoder's tab runs. One
    behaviour of the library is kept as written: the tabs in front of
    `</dict>` are emitted in compact mode too, unlike every other piece of
    indentation. */
module XmlEncoder {
  import opened PlistValue
  import opened KeyOrder
  import Decimal
  import Base64
  import TextEncoder
  import opened Sequences

  const XmlDeclaration: string := "<?xml version=\"1.0\" encoding=\"UTF-8\"?>"
  const DocumentType: string :=
    "<!DOCTYPE plist PUBLIC \"-//Apple//DTD PLIST 1.0//EN\" \"http://www.apple.com/DTDs/PropertyList-1.0.dtd\">"
  const PlistOpen: string := "<plist version=\"1.0\">"
  const PlistClose: string := "</plist>"

  /** A line break in pretty mode, nothing in compact mode. */
  function Newline(pretty: bool): string
  {
    if pretty then "\n" else ""
  }

  /** `n` tabs in pretty mode, nothing in compact mode. */
  function Indent(pretty: bool, n: nat): string
  {
    if pretty then TextEncoder.Tabs(n) else ""
  }

  // ---------------------------------------------------------------------
  // Character data.

  /** `<`, `>` and `&` become entity references; other characters are kept. */
  function XmlEscapeChar(c: char): string
  {
    if c == '<' then "&lt;"
    else if c == '>' then "&gt;"
    else if c == '&' then "&amp;"
    else [c]
  }

  function XmlEscaped(s: string): (r: string)
    ensures |r| >= |s|
  {
    if s == [] then [] else XmlEscaped(s[..|s| - 1]) + XmlEscapeChar(s[|s| - 1])
  }

  /** Replaces each of the three entity references by its character. */
  function XmlUnescaped(s: string): string
  {
    if s == [] then []
    else if |s| >= 4 && s[0] == '&' && s[1] == 'l' && s[2] == 't' && s[3] == ';' then ['<'] + XmlUnescaped(s[4..])
    else if |s| >= 4 && s[0] == '&' && s[1] == 'g' && s[2] == 't' && s[3] == ';' then ['>'] + XmlUnescaped(s[4..])
    else if |s| >= 5 && s[0] == '&' && s[1] == 'a' && s[2] == 'm' && s[3] == 'p' && s[4] == ';' then
      ['&'] + XmlUnescaped(s[5..])
    else [s[0]] + XmlUnescaped(s[1..])
  }

  lemma {:induction false} XmlEscapedAppend(s: string, t: string)
    ensures XmlEscaped(s + t) == XmlEscaped(s) + XmlEscaped(t)
    decreases |t|
  {
    if t == [] {
      assert s + t == s;
    } else {
      var t' := t[..|t| - 1];
      TextEncoder.AppendDropLast(s, t);
      XmlEscapedAppend(s, t');
      AppendAssoc(XmlEscaped(s), XmlEscaped(t'), XmlEscapeChar(t[|t| - 1]));
    }
  }

  /** The reference a character is escaped to reads back as the character. */
  lemma UnescapeFirst(c: char, rest: string)
    ensures XmlUnescaped(XmlEscapeChar(c) + rest) == [c] + XmlUnescaped(rest)
  {
    var e := XmlEscapeChar(c) + rest;
    if c == '<' {
      assert e[4..] == rest;
    } else if c == '>' {
      assert e[4..] == rest;
    } else if c == '&' {
      assert e[5..] == rest;
    } else {
      assert e[1..] == rest;
    }
  }

  /** Escaped character data reads back as the string that was escaped. */
  lemma {:induction false} XmlEscapedRoundTrip(s: string)
    ensures XmlUnescaped(XmlEscaped(s)) == s
    decreases |s|
  {
    if s != [] {
      var c := s[0];
      XmlEscapedAppend([c], s[1..]);
      assert [c] + s[1..] == s;
      assert XmlEscaped([c]) == XmlEscapeChar(c) by {
        assert [c][..0] == [];
      }
      XmlEscapedRoundTrip(s[1..]);
      UnescapeFirst(c, XmlEscaped(s[1..]));
    }
  }

  /** Escaped character data holds no `<` or `>`, so it cannot open or
      close a tag. */
  lemma {:induction false} XmlEscapedNoMarkup(s: string)
    ensures forall i | 0 <= i < |XmlEscaped(s)| :: XmlEscaped(s)[i] != '<' && XmlEscaped(s)[i] != '>'
    decreases |s|
  {
    if s != [] {
      var s' := s[..|s| - 1];
      XmlEscapedNoMarkup(s');
      var p := XmlEscaped(s');
      var e := XmlEscapeChar(s[|s| - 1]);
      forall i | 0 <= i < |p + e|
        ensures (p + e)[i] != '<' && (p + e)[i] != '>'
      {
        if i >= |p| {
          assert (p + e)[i] == e[i - |p|];
        }
      }
    }
  }

  // ---------------------------------------------------------------------
  // Values.

  /** The XML of a Date-free value at nesting depth `level`. `realText` is
      the `std::to_string` rendering of a double. The tabs in front of
      `</dict>` do not depend on `pretty`. */
  function XmlOf(v: Value, pretty: bool, level: nat, realText: Double -> string): string
    requires !ContainsDate(v)
    decreases v, 1, 0
  {
    match v
    case Dictionary(m) =>
      TextEncoder.DateFreeEntries(v);
      "<dict>" + Newline(pretty) + XmlEntries(v, |m|, pretty, level, realText) + TextEncoder.Tabs(level) + "</dict>"
    case Array(a) =>
      "<array>" + Newline(pretty) + XmlItems(v, |a|, pretty, level, realText) + Indent(pretty, level) + "</array>"
    case String(s) => "<string>" + XmlEscaped(s) + "</string>"
    case Real(d) => "<real>" + realText(d) + "</real>"
    case Integer(i) => "<integer>" + Decimal.IntegerText(i as int) + "</integer>"
    case Boolean(b) => if b then "<true/>" else "<false/>"
    case Data(bs) => "<data>" + Base64.Base64(bs) + "</data>"
  }

  /** The first `n` entries of a dictionary, in key order. */
  function XmlEntries(d: Value, n: nat, pretty: bool, level: nat, realText: Double -> string): string
    requires d.Dictionary? && n <= |d.entries| && TextEncoder.EntriesDateFree(d, n)
    decreases d, 0, n
  {
    if n == 0 then ""
    else
      var key := SortedKeys(d.entries)[n - 1];
      XmlEntries(d, n - 1, pretty, level, realText) + XmlEntry(key, d.entries[key], pretty, level, realText)
  }

  /** The `<key>` element of an entry of a dictionary at depth `level`, with
      the indentation on both sides of it. */
  function KeyHead(key: string, pretty: bool, level: nat): string
  {
    Indent(pretty, level + 1) + "<key>" + XmlEscaped(key) + "</key>" + Newline(pretty) + Indent(pretty, level + 1)
  }

  /** One entry of a dictionary at depth `level`: its key element, then its
      value at depth `level + 1`, then a line break. */
  function XmlEntry(key: string, child: Value, pretty: bool, level: nat, realText: Double -> string): string
    requires !ContainsDate(child)
    decreases child, 2
  {
    KeyHead(key, pretty, level) + XmlOf(child, pretty, level + 1, realText) + Newline(pretty)
  }

  /** The first `n` elements of an array. */
  function XmlItems(a: Value, n: nat, pretty: bool, level: nat, realText: Double -> string): string
    requires a.Array? && n <= |a.elements| && TextEncoder.ItemsDateFree(a, n)
    decreases a, 0, n
  {
    if n == 0 then ""
    else XmlItems(a, n - 1, pretty, level, realText) + XmlItem(a.elements[n - 1], pretty, level, realText)
  }

  /** One element of an array at depth `level`, on a line of its own. */
  function XmlItem(child: Value, pretty: bool, level: nat, realText: Double -> string): string
    requires !ContainsDate(child)
    decreases child, 2
  {
    Indent(pretty, level + 1) + XmlOf(child, pretty, level + 1, realText) + Newline(pretty)
  }

  /** A dictionary is Date-free exactly when all its entries in key order
      are, and then its XML is its entries inside `<dict>`. */
  lemma DictionaryXml(d: Value, pretty: bool, level: nat, realText: Double -> string)
    requires d.Dictionary? && TextEncoder.EntriesDateFree(d, |d.entries|)
    ensures !ContainsDate(d)
    ensures XmlOf(d, pretty, level, realText) ==
      "<dict>" + Newline(pretty) + XmlEntries(d, |d.entries|, pretty, level, realText) +
      TextEncoder.Tabs(level) + "</dict>"
  {
    TextEncoder.DateFreeDictionary(d);
  }

  /** One more Date-free entry extends the entries written so far. */
  lemma EntriesStep(d: Value, i: nat, pretty: bool, level: nat, realText: Double -> string)
    requires d.Dictionary? && i < |d.entries| && TextEncoder.EntriesDateFree(d, i)
    requires !ContainsDate(d.entries[SortedKeys(d.entries)[i]])
    ensures TextEncoder.EntriesDateFree(d, i + 1)
    ensures var key := SortedKeys(d.entries)[i];
      XmlEntries(d, i + 1, pretty, level, realText) ==
      XmlEntries(d, i, pretty, level, realText) + XmlEntry(key, d.entries[key], pretty, level, realText)
  {
  }

  /** The XML declaration, the document type and the `<plist>` start tag,
      each on a line of its own in pretty mode. */
  function Prologue(pretty: bool): string
  {
    XmlDeclaration + Newline(pretty) + DocumentType + Newline(pretty) + PlistOpen + Newline(pretty)
  }

  /** The whole document: the prologue, the value at depth 0 and the
      `</plist>` end tag; UnsupportedError when the tree holds a Date
      anywhere. */
  function XmlDocument(v: Value, pretty: bool, realText: Double -> string): Result<string>
  {
    if ContainsDate(v) then Err(UnsupportedError)
    else Ok(Prologue(pretty) + XmlOf(v, pretty, 0, realText) + Newline(pretty) + PlistClose)
  }

  // ---------------------------------------------------------------------
  // The encoder proper.

  /** Appends the character data of a string or key. */
  method EncodeXmlEscaped(s: string, result: string) returns (out: string)
    ensures out == result + XmlEscaped(s)
  {
    out := result;
    var i := 0;
    while i < |s|
      invariant 0 <= i <= |s|
      invariant out == result + XmlEscaped(s[..i])
    {
      var c := s[i];
      if c == '<' {
        out := out + "&lt;";
      } else if c == '>' {
        out := out + "&gt;";
      } else if c == '&' {
        out := out + "&amp;";
      } else {
        out := out + [c];
      }
      assert s[..i + 1][..i] == s[..i];
      AppendAssoc(result, XmlEscaped(s[..i]), XmlEscapeChar(c));
      i := i + 1;
    }
    assert s[..i] == s;
  }

  /** The XML of a value at depth `level`, as the recursive encoder appends
      it to the output buffer; `ok` is false when the tree holds a Date
      anywhere, where the library throws and abandons the buffer. */
  method EncodeValue(v: Value, pretty: bool, level: nat, realText: Double -> string)
    returns (text: string, ok: bool)
    ensures ok <==> !ContainsDate(v)
    ensures ok ==> text == XmlOf(v, pretty, level, realText)
    decreases v, 2
  {
    match v
    case Dictionary(_) =>
      text, ok := EncodeDictionary(v, pretty, level, realText);
    case Array(_) =>
      text, ok := EncodeArray(v, pretty, level, realText);
    case String(s) =>
      text := EncodeXmlEscaped(s, "<string>");
      text := text + "</string>";
      ok := true;
    case Real(d) =>
      text := "<real>" + realText(d) + "</real>";
      ok := true;
    case Integer(i) =>
      text := "<integer>" + Decimal.IntegerText(i as int) + "</integer>";
      ok := true;
    case Boolean(b) =>
      text := if b then "<true/>" else "<false/>";
      ok := true;
    case Data(bs) =>
      text := Base64.EncodeBase64(bs, "<data>");
      text := text + "</data>";
      ok := true;
    case Date(_) =>
      text := "";
      ok := false;
  }

  /** The dictionary case: `<dict>`, the entries in key order, the closing
      tabs (in both modes) and `</dict>`. The loop stops at the first entry
      whose value holds a Date. */
  method EncodeDictionary(d: Value, pretty: bool, level: nat, realText: Double -> string)
    returns (text: string, ok: bool)
    requires d.Dictionary?
    ensures ok <==> !ContainsDate(d)
    ensures ok ==> text == XmlOf(d, pretty, level, realText)
    decreases d, 1
  {
    var m := d.entries;
    var keys := SortedKeys(m);
    var body := "";
    var i := 0;
    while i < |keys|
      invariant 0 <= i <= |keys|
      invariant keys == SortedKeys(d.entries)
      invariant TextEncoder.EntriesDateFree(d, i)
      invariant body == XmlEntries(d, i, pretty, level, realText)
    {
      var key := keys[i];
      var entry;
      entry, ok := EncodeEntry(key, m[key], pretty, level, realText);
      if !ok {
        text := "";
        return;
      }
      EntriesStep(d, i, pretty, level, realText);
      body := body + entry;
      i := i + 1;
    }
    DictionaryXml(d, pretty, level, realText);
    text := "<dict>" + Newline(pretty) + body + TextEncoder.Tabs(level) + "</dict>";
    ok := true;
  }

  /** One dictionary entry: the key element, the value and a line break. */
  method EncodeEntry(key: string, child: Value, pretty: bool, level: nat, realText: Double -> string)
    returns (text: string, ok: bool)
    ensures ok <==> !ContainsDate(child)
    ensures ok ==> text == XmlEntry(key, child, pretty, level, realText)
    decreases child, 3
  {
    var head := EncodeKeyHead(key, pretty, level);
    var childText;
    childText, ok := EncodeValue(child, pretty, level + 1, realText);
    if !ok {
      text := "";
      return;
    }
    text := head + childText + Newline(pretty);
  }

  method EncodeKeyHead(key: string, pretty: bool, level: nat) returns (head: string)
    ensures head == KeyHead(key, pretty, level)
  {
    head := Indent(pretty, level + 1) + "<key>";
    head := EncodeXmlEscaped(key, head);
    head := head + "</key>" + Newline(pretty) + Indent(pretty, level + 1);
  }

  /** The array case: `<array>`, the elements, the closing indentation and
      `</array>`. The loop stops at the first element that holds a Date. */
  method EncodeArray(a: Value, pretty: bool, level: nat, realText: Double -> string)
    returns (text: string, ok: bool)
    requires a.Array?
    ensures ok <==> !ContainsDate(a)
    ensures ok ==> text == XmlOf(a, pretty, level, realText)
    decreases a, 1
  {
    var elements := a.elements;
    var body := "";
    var i := 0;
    while i < |elements|
      invariant 0 <= i <= |elements|
      invariant TextEncoder.ItemsDateFree(a, i)
      invariant body == XmlItems(a, i, pretty, level, realText)
    {
      var item;
      item, ok := EncodeItem(elements[i], pretty, level, realText);
      if !ok {
        text := "";
        return;
      }
      body := body + item;
      i := i + 1;
    }
    text := "<array>" + Newline(pretty) + body + Indent(pretty, level) + "</array>";
    ok := true;
  }

  /** One array element: indentation, the element and a line break. */
  method EncodeItem(child: Value, pretty: bool, level: nat, realText: Double -> string)
    returns (text: string, ok: bool)
    ensures ok <==> !ContainsDate(child)
    ensures ok ==> text == XmlItem(child, pretty, level, realText)
    decreases child, 3
  {
    var childText;
    childText, ok := EncodeValue(child, pretty, level + 1, realText);
    if !ok {
      text := "";
      return;
    }
    text := Indent(pretty, level + 1) + childText + Newline(pretty);
  }

  /** The XML encoder's entry point: the prologue, the value and the end
      tag; no string at all when the value holds a Date. */
  method Encode(v: Value, pretty: bool, realText: Double -> string) returns (r: Result<string>)
    ensures r == XmlDocument(v, pretty, realText)
  {
    var result := XmlDeclaration;
    result := result + Newline(pretty);
    result := result + DocumentType;
    result := result + Newline(pretty);
    result := result + PlistOpen;
    result := result + Newline(pretty);
    var text, ok := EncodeValue(v, pretty, 0, realText);
    if ok {
      result := result + text;
      result := result + Newline(pretty);
      result := result + PlistClose;
      r := Ok(result);
    } else {
      r := Err(UnsupportedError);
    }
  }

  // ---------------------------------------------------------------------
  // Properties of the output.

  /** Every value's XML is one element: it opens with `<` and closes with
      `>`. */
  lemma ElementDelimited(v: Value, pretty: bool, level: nat, realText: Double -> string)
    requires !ContainsDate(v)
    ensures var x := XmlOf(v, pretty, level, realText);
      |x| >= 2 && x[0] == '<' && x[|x| - 1] == '>'
  {
  }

  /** The closing tag of a dictionary at depth `level` is preceded by
      `level` tabs in compact mode as in pretty mode: a compact document
      that nests dictionaries holds tab characters. */
  lemma DictionaryCloseTabs(d: Value, pretty: bool, level: nat, realText: Double -> string)
    requires d.Dictionary? && !ContainsDate(d)
    ensures var x := XmlOf(d, pretty, level, realText);
      |x| >= level + 7 && x[|x| - 7..] == "</dict>" &&
      forall i | |x| - 7 - level <= i < |x| - 7 :: x[i] == '\t'
  {
    TextEncoder.DateFreeEntries(d);
    var p := "<dict>" + Newline(pretty) + XmlEntries(d, |d.entries|, pretty, level, realText);
    var x := p + TextEncoder.Tabs(level) + "</dict>";
    assert XmlOf(d, pretty, level, realText) == x;
    assert x[|x| - 7..] == "</dict>";
    forall i | |x| - 7 - level <= i < |x| - 7
      ensures x[i] == '\t'
    {
      assert x[i] == TextEncoder.Tabs(level)[i - |p|];
    }
  }
}
