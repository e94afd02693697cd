/** The public `encode` entry point: choose the encoder for the requested
    format, in compact or pretty ("whitespaces") mode. */
module PlistEncode {
  import opened PlistValue
  import TextEncoder
  import XmlEncoder

  datatype Format = Text | Xml

  /** The document `encode` returns for a value, or the error it raises. */
  function Encoded(v: Value, format: Format, pretty: bool, realText: Double -> string): Result<string>
  {
    match format
    case Text => TextEncoder.Document(v, pretty, realText)
    case Xml => XmlEncoder.XmlDocument(v, pretty, realText)
  }

  method Encode(v: Value, format: Format, pretty: bool, realText: Double -> string) returns (r: Result<string>)
    ensures r == Encoded(v, format, pretty, realText)
  {
    match format
    case Text =>
      r := TextEncoder.Encode(v, pretty, realText);
    case Xml =>
      r := XmlEncoder.Encode(v, pretty, realText);
  }

  /** Encoding fails, in either format and either mode, exactly when the
      tree holds a Date at some depth, and the failure is UnsupportedError. */
  lemma FailsIffDate(v: Value, format: Format, pretty: bool, realText: Double -> string)
    ensures Encoded(v, format, pretty, realText).Err? <==> ContainsDate(v)
    ensures Encoded(v, format, pretty, realText).Err? ==>
      Encoded(v, format, pretty, realText).error == UnsupportedError
  {
  }

  /** A Date nested inside arrays and dictionaries makes the whole document
      fail. */
  lemma NestedDateFails(t: TimePoint, format: Format, pretty: bool, realText: Double -> string)
    ensures Encoded(Array([Dictionary(map["when" := Date(t)])]), format, pretty, realText) == Err(UnsupportedError)
  {
    var inner := Dictionary(map["when" := Date(t)]);
    assert ContainsDate(inner) by {
      assert "when" in inner.entries;
    }
    assert ContainsDate(Array([inner])) by {
      assert [inner][0] == inner;
    }
  }

  /** A text document opens with the preamble. */
  lemma TextPreamble(v: Value, pretty: bool, realText: Double -> string)
    requires !ContainsDate(v)
    ensures var r := Encoded(v, Text, pretty, realText);
      r.Ok? && |r.value| >= |TextEncoder.Preamble| &&
      r.value[..|TextEncoder.Preamble|] == TextEncoder.Preamble
  {
    var x := TextEncoder.Preamble + TextEncoder.TextOf(v, pretty, 0, realText);
    assert x[..|TextEncoder.Preamble|] == TextEncoder.Preamble;
  }

  lemma TakeOfAppend(a: string, b: string, k: nat)
    requires k <= |a|
    ensures (a + b)[..k] == a[..k]
  {
  }

  lemma DropOfAppend(a: string, b: string)
    ensures (a + b)[|a|..] == b
  {
  }

  /** An XML document opens with the XML declaration and closes with the
      `</plist>` end tag. */
  lemma XmlFrame(v: Value, pretty: bool, realText: Double -> string)
    requires !ContainsDate(v)
    ensures var r := Encoded(v, Xml, pretty, realText);
      r.Ok? && |r.value| >= |XmlEncoder.XmlDeclaration| + |XmlEncoder.PlistClose| &&
      r.value[..|XmlEncoder.XmlDeclaration|] == XmlEncoder.XmlDeclaration &&
      r.value[|r.value| - |XmlEncoder.PlistClose|..] == XmlEncoder.PlistClose
  {
    XmlStart(v, pretty, realText);
    var front := XmlEncoder.Prologue(pretty) + XmlEncoder.XmlOf(v, pretty, 0, realText) + XmlEncoder.Newline(pretty);
    DropOfAppend(front, XmlEncoder.PlistClose);
  }

  lemma XmlStart(v: Value, pretty: bool, realText: Double -> string)
    requires !ContainsDate(v)
    ensures var r := Encoded(v, Xml, pretty, realText);
      r.Ok? && |r.value| >= |XmlEncoder.XmlDeclaration| &&
      r.value[..|XmlEncoder.XmlDeclaration|] == XmlEncoder.XmlDeclaration
  {
    var d := XmlEncoder.XmlDeclaration;
    var k := |d|;
    var nl := XmlEncoder.Newline(pretty);
    var p1 := d + nl;
    var p2 := p1 + XmlEncoder.DocumentType;
    var p3 := p2 + nl;
    var p4 := p3 + XmlEncoder.PlistOpen;
    var p5 := p4 + nl;
    var p6 := p5 + XmlEncoder.XmlOf(v, pretty, 0, realText);
    var p7 := p6 + nl;
    TakeOfAppend(p7, XmlEncoder.PlistClose, k);
    TakeOfAppend(p6, nl, k);
    TakeOfAppend(p5, XmlEncoder.XmlOf(v, pretty, 0, realText), k);
    TakeOfAppend(p4, nl, k);
    TakeOfAppend(p3, XmlEncoder.PlistOpen, k);
    TakeOfAppend(p2, nl, k);
    TakeOfAppend(p1, XmlEncoder.DocumentType, k);
    TakeOfAppend(d, nl, k);
  }

  /** A default-constructed value, an empty Dictionary, is written in
      compact text mode as the preamble followed by `{}`. */
  lemma DefaultText(realText: Double -> string)
    ensures Encoded(Default, Text, false, realText) == Ok(TextEncoder.Preamble + "{}")
  {
    assert TextEncoder.EntriesText(Default, 0, false, 0, realText) == "";
    assert "{" + "" + "" + "}" == "{}";
  }

  /** An empty dictionary in pretty text mode still gets a line break and
      its depth in tabs before the closing brace. */
  lemma PrettyEmptyDictionary(level: nat, realText: Double -> string)
    ensures TextEncoder.TextOf(Dictionary(map[]), true, level, realText) ==
      "{" + "\n" + TextEncoder.Tabs(level) + "}"
  {
    assert TextEncoder.EntriesText(Dictionary(map[]), 0, true, level, realText) == "";
  }

  /** In a pretty text array the comma that separates two elements comes
      before the line break and the indentation of the next one. */
  lemma PrettyArrayCommas(x: Value, y: Value, level: nat, realText: Double -> string)
    requires !ContainsDate(x) && !ContainsDate(y)
    ensures var indent := "\n" + TextEncoder.Tabs(level + 1);
      TextEncoder.TextOf(Array([x, y]), true, level, realText) ==
      "(" +
      ((indent + TextEncoder.TextOf(x, true, level + 1, realText)) +
       ("," + indent + TextEncoder.TextOf(y, true, level + 1, realText))) +
      ("\n" + TextEncoder.Tabs(level)) + ")"
  {
    var a := Array([x, y]);
    var indent := "\n" + TextEncoder.Tabs(level + 1);
    assert !ContainsDate(a) by {
      forall i | 0 <= i < 2
        ensures !ContainsDate(a.elements[i])
      {
      }
    }
    var first := TextEncoder.ItemText(true, x, true, level, realText);
    assert first == indent + TextEncoder.TextOf(x, true, level + 1, realText) by {
      TextEncoder.EmptyAppend(indent);
    }
    assert TextEncoder.ItemsText(a, 1, true, level, realText) == first by {
      TextEncoder.EmptyAppend(first);
    }
    var second := TextEncoder.ItemText(false, y, true, level, realText);
    assert second == "," + indent + TextEncoder.TextOf(y, true, level + 1, realText);
    assert TextEncoder.ItemsText(a, 2, true, level, realText) == first + second;
    assert TextEncoder.TextOf(a, true, level, realText) ==
      "(" + (first + second) + ("\n" + TextEncoder.Tabs(level)) + ")";
  }
}
