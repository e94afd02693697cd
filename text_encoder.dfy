/** The text (OpenStep/ASCII) property-list encoder.

    The specification half is a set of functions giving the text of every
    Date-free value; the implementation half is a set of methods that build
    the text step by step with the library's loops. The library appends to
    one `std::string& result` buffer throughout; here the string and Data
    encoders take that buffer as `result` and hand it back as `out`, and the
    recursive value encoders return the text they append, which the caller
    appends in turn. Each method is proved to produce exactly the specified
    text, and to fail exactly when the tree holds a Date. */
module TextEncoder {
  import opened PlistValue
  import opened KeyOrder
  import Decimal
  import opened Sequences

  const Preamble: string := "// !$*UTF8*$!\n"

  function Tabs(n: nat): (s: string)
    ensures |s| == n
    ensures forall i | 0 <= i < n :: s[i] == '\t'
  {
    seq(n, _ => '\t')
  }

  lemma EmptyAppend(s: string)
    ensures "" + s == s
  {
  }

  /** Dropping the last character of `s + t`, for a non-empty `t`, drops it
      from `t`. */
  lemma AppendDropLast(s: string, t: string)
    requires t != []
    ensures (s + t)[..|s + t| - 1] == s + t[..|t| - 1]
  {
  }

  /** A newline and `n` tabs in pretty mode, nothing in compact mode. */
  function NewlineIndent(pretty: bool, n: nat): string
  {
    if pretty then "\n" + Tabs(n) else ""
  }

  // ---------------------------------------------------------------------
  // Strings and keys.

  /** The characters a string may consist of to be written without quotes:
      `[A-Za-z0-9_$/:.-]`. */
  predicate IsPlainChar(c: char)
  {
    ('a' <= c <= 'z') || ('A' <= c <= 'Z') || ('0' <= c <= '9') ||
    c == '_' || c == '$' || c == '/' || c == ':' || c == '.' || c == '-'
  }

  predicate HasSpecialChars(s: string)
  {
    exists i | 0 <= i < |s| :: !IsPlainChar(s[i])
  }

  /** A `"` or `\` is preceded by a backslash; other characters are kept. */
  function EscapeChar(c: char): string
  {
    if c == '"' || c == '\\' then ['\\', c] else [c]
  }

  function Escaped(s: string): (r: string)
    ensures |r| >= |s|
  {
    if s == [] then [] else Escaped(s[..|s| - 1]) + EscapeChar(s[|s| - 1])
  }

  /** Reads the inside of a quoted string back: a backslash takes the next
      character literally. A bare `"` would close the string early and a
      lone trailing backslash escapes nothing, so both give None. */
  function Unescaped(s: string): Option<string>
  {
    if s == [] then Some([])
    else if s[0] == '"' then None
    else if s[0] == '\\' then
      if |s| < 2 then None
      else
        var rest := Unescaped(s[2..]);
        if rest.None? then None else Some([s[1]] + rest.value)
    else
      var rest := Unescaped(s[1..]);
      if rest.None? then None else Some([s[0]] + rest.value)
  }

  /** The rendering of a string or a key. */
  function QuotedText(s: string): string
  {
    if s == [] then "\"\""
    else if HasSpecialChars(s) then "\"" + Escaped(s) + "\""
    else Escaped(s)
  }

  lemma {:induction false} EscapedAppend(s: string, t: string)
    ensures Escaped(s + t) == Escaped(s) + Escaped(t)
    decreases |t|
  {
    if t == [] {
      assert s + t == s;
    } else {
      var t' := t[..|t| - 1];
      AppendDropLast(s, t);
      EscapedAppend(s, t');
      AppendAssoc(Escaped(s), Escaped(t'), EscapeChar(t[|t| - 1]));
    }
  }

  /** One escaped character followed by text that reads back reads back. */
  lemma UnescapeFirst(c: char, rest: string, r: string)
    requires Unescaped(rest) == Some(r)
    ensures Unescaped(EscapeChar(c) + rest) == Some([c] + r)
  {
    if c == '"' || c == '\\' {
      assert (['\\', c] + rest)[2..] == rest;
    } else {
      assert ([c] + rest)[1..] == rest;
    }
  }

  lemma {:induction false} EscapedRoundTrip(s: string)
    ensures Unescaped(Escaped(s)) == Some(s)
    decreases |s|
  {
    if s != [] {
      EscapedAppend([s[0]], s[1..]);
      assert [s[0]] + s[1..] == s;
      assert Escaped([s[0]]) == EscapeChar(s[0]) by {
        assert [s[0]][..0] == [];
      }
      EscapedRoundTrip(s[1..]);
      UnescapeFirst(s[0], Escaped(s[1..]), s[1..]);
    }
  }

  lemma {:induction false} PlainUnescaped(s: string)
    requires !HasSpecialChars(s)
    ensures Escaped(s) == s
    decreases |s|
  {
    if s != [] {
      var s' := s[..|s| - 1];
      assert !HasSpecialChars(s') by {
        forall i | 0 <= i < |s'|
          ensures IsPlainChar(s'[i])
        {
          assert s'[i] == s[i];
        }
      }
      PlainUnescaped(s');
      var c := s[|s| - 1];
      assert IsPlainChar(c);
      assert EscapeChar(c) == [c];
      SplitLast(s);
    }
  }

  /** The quoting rule: the empty string is `""`; a string of plain
      characters is written as it is; any other string is wrapped in double
      quotes with `"` and `\` escaped, so that it reads back unchanged. */
  lemma StringRendering(s: string)
    ensures s == [] ==> QuotedText(s) == "\"\""
    ensures s != [] && !HasSpecialChars(s) ==> QuotedText(s) == s
    ensures s != [] && HasSpecialChars(s) ==>
      var q := QuotedText(s);
      |q| >= 2 && q[0] == '"' && q[|q| - 1] == '"' && Unescaped(q[1..|q| - 1]) == Some(s)
  {
    if s != [] {
      if HasSpecialChars(s) {
        var q := QuotedText(s);
        assert q[1..|q| - 1] == Escaped(s);
        EscapedRoundTrip(s);
      } else {
        PlainUnescaped(s);
      }
    }
  }

  /** The strict reading rejects a bare quote, which an escaper that left
      `"` alone would have produced. */
  lemma BareQuoteRejected()
    ensures Unescaped("a\"b") == None
    ensures Unescaped(Escaped("a\"b")) == Some("a\"b")
  {
    EscapedRoundTrip("a\"b");
    assert "a\"b"[1..] == "\"b";
  }

  /** A string is written without quotes exactly when it is non-empty and
      all its characters are plain. */
  lemma UnquotedIff(s: string)
    ensures QuotedText(s) == s <==> s != [] && !HasSpecialChars(s)
  {
    StringRendering(s);
  }

  // ---------------------------------------------------------------------
  // Data.

  /** The character `"0123456789ABCDEF"[d]` of the encoder's digit table. */
  function HexDigit(d: nat): char
    requires d < 16
  {
    if d < 10 then ('0' as int + d) as char else ('A' as int + d - 10) as char
  }

  /** Two upper-case hexadecimal digits, high nibble first. */
  function HexPair(b: byte): string
  {
    [HexDigit(b as nat / 16), HexDigit(b as nat % 16)]
  }

  /** The digits of a Data blob; pairs separated by single spaces in pretty
      mode only. */
  function HexText(bs: seq<byte>, pretty: bool): string
  {
    if bs == [] then ""
    else HexText(bs[..|bs| - 1], pretty) + (if pretty && |bs| > 1 then " " else "") + HexPair(bs[|bs| - 1])
  }

  /** The value of an upper-case hexadecimal digit. */
  function HexValue(c: char): nat
  {
    if '0' <= c <= '9' then (c as int - '0' as int) as nat
    else if 'A' <= c <= 'F' then (c as int - 'A' as int + 10) as nat
    else 0
  }

  /** Each digit is an upper-case hexadecimal digit and reads back as its
      value. */
  lemma HexDigitValue(d: nat)
    requires d < 16
    ensures '0' <= HexDigit(d) <= '9' || 'A' <= HexDigit(d) <= 'F'
    ensures HexValue(HexDigit(d)) == d
  {
  }

  /** The two digits of a byte read back as the byte: high nibble times 16
      plus low nibble. */
  lemma HexPairValue(b: byte)
    ensures HexValue(HexPair(b)[0]) * 16 + HexValue(HexPair(b)[1]) == b as int
  {
    HexDigitValue(b as nat / 16);
    HexDigitValue(b as nat % 16);
  }

  /** A blob of n > 0 bytes takes 2n characters compact and 3n - 1 pretty. */
  lemma {:induction false} HexTextLength(bs: seq<byte>, pretty: bool)
    ensures |HexText(bs, pretty)| == if bs == [] then 0 else if pretty then 3 * |bs| - 1 else 2 * |bs|
    decreases |bs|
  {
    if bs != [] {
      HexTextLength(bs[..|bs| - 1], pretty);
    }
  }

  /** A two-character slice of `front + sep + last` lies in `front` or is
      `last`. */
  lemma PairSlot(front: string, sep: string, last: string, at: nat, q: string)
    requires |last| == 2
    requires (at + 2 <= |front| && front[at..at + 2] == q) || (at == |front| + |sep| && q == last)
    ensures at + 2 <= |front + sep + last| && (front + sep + last)[at..at + 2] == q
  {
    var t := front + sep + last;
    if at + 2 <= |front| {
      assert t[at..at + 2] == front[at..at + 2];
    } else {
      assert t[at..at + 2] == last;
    }
  }

  /** The pair of byte `i` is where it was in the text of the blob without
      its last byte, or, for the last byte, at the end. */
  lemma PairAt(bs: seq<byte>, pretty: bool, i: nat)
    requires i < |bs|
    requires var hp := HexText(bs[..|bs| - 1], pretty); var at := if pretty then 3 * i else 2 * i;
      |hp| == (if |bs| == 1 then 0 else if pretty then 3 * (|bs| - 1) - 1 else 2 * (|bs| - 1)) &&
      (i < |bs| - 1 ==> hp[at..at + 2] == HexPair(bs[i]))
    ensures var at := if pretty then 3 * i else 2 * i;
      at + 2 <= |HexText(bs, pretty)| && HexText(bs, pretty)[at..at + 2] == HexPair(bs[i])
  {
    var n := |bs|;
    var hp := HexText(bs[..n - 1], pretty);
    var sep := if pretty && n > 1 then " " else "";
    var at := if pretty then 3 * i else 2 * i;
    var last := HexPair(bs[n - 1]);
    assert HexText(bs, pretty) == hp + sep + last;
    PairSlot(hp, sep, last, at, HexPair(bs[i]));
  }

  /** Byte `i` of a blob is the digit pair at offset 2i (compact) or 3i
      (pretty). */
  lemma {:induction false} HexTextPairs(bs: seq<byte>, pretty: bool)
    ensures |HexText(bs, pretty)| == if bs == [] then 0 else if pretty then 3 * |bs| - 1 else 2 * |bs|
    ensures forall i | 0 <= i < |bs| ::
      var at := if pretty then 3 * i else 2 * i;
      HexText(bs, pretty)[at..at + 2] == HexPair(bs[i])
    decreases |bs|
  {
    HexTextLength(bs, pretty);
    if bs != [] {
      var prefix := bs[..|bs| - 1];
      HexTextPairs(prefix, pretty);
      forall i | 0 <= i < |bs|
        ensures var at := if pretty then 3 * i else 2 * i;
          HexText(bs, pretty)[at..at + 2] == HexPair(bs[i])
      {
        if i < |bs| - 1 {
          assert prefix[i] == bs[i];
        }
        PairAt(bs, pretty, i);
      }
    }
  }

  /** In pretty mode a single space follows every pair but the last. */
  lemma {:induction false} HexTextSpaces(bs: seq<byte>)
    ensures forall i | 0 <= i < |bs| - 1 :: |HexText(bs, true)| > 3 * i + 2 && HexText(bs, true)[3 * i + 2] == ' '
    decreases |bs|
  {
    HexTextLength(bs, true);
    if bs != [] {
      var n := |bs|;
      var prefix := bs[..n - 1];
      HexTextSpaces(prefix);
      HexTextLength(prefix, true);
      var h := HexText(bs, true);
      var hp := HexText(prefix, true);
      forall i | 0 <= i < n - 1
        ensures h[3 * i + 2] == ' '
      {
        if i < n - 2 {
          assert h[3 * i + 2] == hp[3 * i + 2];
        }
      }
    }
  }

  /** The layout of a Data blob's digits: length, pair positions, and the
      single spaces between pairs in pretty mode. */
  lemma HexTextLayout(bs: seq<byte>, pretty: bool)
    ensures |HexText(bs, pretty)| == if bs == [] then 0 else if pretty then 3 * |bs| - 1 else 2 * |bs|
    ensures forall i | 0 <= i < |bs| ::
      var at := if pretty then 3 * i else 2 * i;
      HexText(bs, pretty)[at..at + 2] == HexPair(bs[i])
    ensures pretty ==> forall i | 0 <= i < |bs| - 1 :: HexText(bs, pretty)[3 * i + 2] == ' '
  {
    HexTextPairs(bs, pretty);
    HexTextSpaces(bs);
  }

  // ---------------------------------------------------------------------
  // Values.

  /** What precedes the value of a dictionary entry: indentation, key and
      `=`. The entry itself ends with a mandatory `;` after the value. */
  function EntryHead(key: string, pretty: bool, level: nat): string
  {
    NewlineIndent(pretty, level + 1) + QuotedText(key) + (if pretty then " = " else "=")
  }

  /** What precedes an array element: the separating comma comes before the
      newline and the indentation; the first element has none. */
  function ItemHead(first: bool, pretty: bool, level: nat): string
  {
    (if first then "" else ",") + NewlineIndent(pretty, level + 1)
  }

  /** The text of a Date-free value at nesting depth `level`. `realText` is
      the `std::to_string` rendering of a double, which this model does not
      interpret. */
  function TextOf(v: Value, pretty: bool, level: nat, realText: Double -> string): string
    requires !ContainsDate(v)
    decreases v, 1, 0
  {
    match v
    case Dictionary(m) =>
      DateFreeEntries(v);
      "{" + EntriesText(v, |m|, pretty, level, realText) + NewlineIndent(pretty, level) + "}"
    case Array(a) =>
      "(" + ItemsText(v, |a|, pretty, level, realText) + NewlineIndent(pretty, level) + ")"
    case String(s) => QuotedText(s)
    case Real(d) => realText(d)
    case Integer(i) => Decimal.IntegerText(i as int)
    case Boolean(b) => if b then "YES" else "NO"
    case Data(bs) => "<" + HexText(bs, pretty) + ">"
  }

  /** No Date among the first `n` entries of a dictionary, in key order. */
  predicate EntriesDateFree(d: Value, n: nat)
    requires d.Dictionary? && n <= |d.entries|
  {
    var keys := SortedKeys(d.entries);
    forall j | 0 <= j < n :: !ContainsDate(d.entries[keys[j]])
  }

  lemma DateFreeEntries(d: Value)
    requires d.Dictionary? && !ContainsDate(d)
    ensures EntriesDateFree(d, |d.entries|)
  {
    var keys := SortedKeys(d.entries);
    forall j | 0 <= j < |keys|
      ensures !ContainsDate(d.entries[keys[j]])
    {
    }
  }

  /** A dictionary whose entries in key order are all Date-free holds no
      Date: the key-order walk visits every entry. */
  lemma DateFreeDictionary(d: Value)
    requires d.Dictionary? && EntriesDateFree(d, |d.entries|)
    ensures !ContainsDate(d)
  {
    var keys := SortedKeys(d.entries);
    forall k | k in d.entries
      ensures !ContainsDate(d.entries[k])
    {
      SortedKeysComplete(d.entries, k);
      var j :| 0 <= j < |keys| && keys[j] == k;
    }
  }

  /** A dictionary is Date-free exactly when all its entries in key order
      are, and then its text is its entries between braces. */
  lemma DictionaryText(d: Value, pretty: bool, level: nat, realText: Double -> string)
    requires d.Dictionary? && EntriesDateFree(d, |d.entries|)
    ensures !ContainsDate(d)
    ensures TextOf(d, pretty, level, realText) ==
      "{" + EntriesText(d, |d.entries|, pretty, level, realText) + NewlineIndent(pretty, level) + "}"
  {
    DateFreeDictionary(d);
  }

  /** The first `n` entries of a dictionary, in key order. */
  function EntriesText(d: Value, n: nat, pretty: bool, level: nat, realText: Double -> string): string
    requires d.Dictionary? && n <= |d.entries| && EntriesDateFree(d, n)
    decreases d, 0, n
  {
    if n == 0 then ""
    else
      var key := SortedKeys(d.entries)[n - 1];
      EntriesText(d, n - 1, pretty, level, realText) + EntryText(key, d.entries[key], pretty, level, realText)
  }

  /** One more Date-free entry extends the entries written so far. */
  lemma EntriesStep(d: Value, i: nat, pretty: bool, level: nat, realText: Double -> string)
    requires d.Dictionary? && i < |d.entries| && EntriesDateFree(d, i)
    requires !ContainsDate(d.entries[SortedKeys(d.entries)[i]])
    ensures EntriesDateFree(d, i + 1)
    ensures var key := SortedKeys(d.entries)[i];
      EntriesText(d, i + 1, pretty, level, realText) ==
      EntriesText(d, i, pretty, level, realText) + EntryText(key, d.entries[key], pretty, level, realText)
  {
  }

  /** One dictionary entry of a dictionary at depth `level`. */
  function EntryText(key: string, child: Value, pretty: bool, level: nat, realText: Double -> string): string
    requires !ContainsDate(child)
    decreases child, 2
  {
    EntryHead(key, pretty, level) + TextOf(child, pretty, level + 1, realText) + ";"
  }

  /** No Date among the first `n` elements of an array. */
  predicate ItemsDateFree(a: Value, n: nat)
    requires a.Array? && n <= |a.elements|
  {
    forall j | 0 <= j < n :: !ContainsDate(a.elements[j])
  }

  /** The first `n` elements of an array. */
  function ItemsText(a: Value, n: nat, pretty: bool, level: nat, realText: Double -> string): string
    requires a.Array? && n <= |a.elements| && ItemsDateFree(a, n)
    decreases a, 0, n
  {
    if n == 0 then ""
    else
      ItemsText(a, n - 1, pretty, level, realText) + ItemText(n == 1, a.elements[n - 1], pretty, level, realText)
  }

  /** One more Date-free element extends the elements written so far. */
  lemma ItemsStep(a: Value, i: nat, pretty: bool, level: nat, realText: Double -> string)
    requires a.Array? && i < |a.elements| && ItemsDateFree(a, i)
    requires !ContainsDate(a.elements[i])
    ensures ItemsDateFree(a, i + 1)
    ensures ItemsText(a, i + 1, pretty, level, realText) ==
      ItemsText(a, i, pretty, level, realText) + ItemText(i == 0, a.elements[i], pretty, level, realText)
  {
  }

  /** One element of an array at depth `level`. */
  function ItemText(first: bool, child: Value, pretty: bool, level: nat, realText: Double -> string): string
    requires !ContainsDate(child)
    decreases child, 2
  {
    ItemHead(first, pretty, level) + TextOf(child, pretty, level + 1, realText)
  }

  /** The whole document: the preamble, then the value; UnsupportedError
      when the tree holds a Date anywhere. */
  function Document(v: Value, pretty: bool, realText: Double -> string): Result<string>
  {
    if ContainsDate(v) then Err(UnsupportedError) else Ok(Preamble + TextOf(v, pretty, 0, realText))
  }

  // ---------------------------------------------------------------------
  // The encoder proper.

  /** Appends the rendering of a string or key. */
  method EncodeString(s: string, result: string) returns (out: string)
    ensures out == result + QuotedText(s)
  {
    if |s| > 0 {
      var hasSpecialChars := ScanSpecialChars(s);
      out := result;
      if hasSpecialChars {
        out := out + "\"";
      }
      out := EncodeEscaped(s, out);
      if hasSpecialChars {
        AppendAssoc(result, "\"", Escaped(s));
        AppendAssoc(result, "\"" + Escaped(s), "\"");
        out := out + "\"";
      }
    } else {
      out := result + "\"\"";
    }
  }

  /** The scan for a character outside `[A-Za-z0-9_$/:.-]`, stopping at the
      first one. */
  method ScanSpecialChars(s: string) returns (hasSpecialChars: bool)
    ensures hasSpecialChars == HasSpecialChars(s)
  {
    hasSpecialChars := false;
    var i := 0;
    while i < |s|
      invariant 0 <= i <= |s|
      invariant forall j | 0 <= j < i :: IsPlainChar(s[j])
    {
      var c := s[i];
      if (c < 'a' || c > 'z') &&
         (c < 'A' || c > 'Z') &&
         (c < '0' || c > '9') &&
         c != '_' && c != '$' && c != '/' &&
         c != ':' && c != '.' && c != '-'
      {
        hasSpecialChars := true;
        return;
      }
      i := i + 1;
    }
  }

  /** Appends the characters of a string, each `"` and `\` preceded by a
      backslash. */
  method EncodeEscaped(s: string, result: string) returns (out: string)
    ensures out == result + Escaped(s)
  {
    out := result;
    var i := 0;
    while i < |s|
      invariant 0 <= i <= |s|
      invariant out == result + Escaped(s[..i])
    {
      var c := s[i];
      if c == '"' || c == '\\' {
        out := out + "\\";
      }
      out := out + [c];
      assert s[..i + 1][..i] == s[..i];
      AppendAssoc(result, Escaped(s[..i]), EscapeChar(c));
      i := i + 1;
    }
    assert s[..i] == s;
  }

  /** Appends the `<...>` rendering of a Data blob. The separator counter
      only advances in pretty mode. */
  method EncodeData(bs: seq<byte>, result: string, pretty: bool) returns (out: string)
    ensures out == result + "<" + HexText(bs, pretty) + ">"
  {
    out := result + "<";
    ghost var start := out;
    var count := 0;
    var i := 0;
    while i < |bs|
      invariant 0 <= i <= |bs|
      invariant count == if pretty then i else 0
      invariant out == start + HexText(bs[..i], pretty)
    {
      var b := bs[i];
      if pretty {
        if count > 0 {
          out := out + " ";
        }
        count := count + 1;
      }
      out := out + [HexDigit(b as nat / 16)];
      out := out + [HexDigit(b as nat % 16)];
      assert bs[..i + 1][..i] == bs[..i];
      i := i + 1;
    }
    assert bs[..i] == bs;
    out := out + ">";
  }

  /** The text of a value at depth `level`, as the recursive encoder
      appends it to the output buffer; `ok` is false when the tree holds a
      Date anywhere, where the library throws and abandons the buffer. */
  method EncodeValue(v: Value, pretty: bool, level: nat, realText: Double -> string)
    returns (text: string, ok: bool)
    ensures ok <==> !ContainsDate(v)
    ensures ok ==> text == TextOf(v, pretty, level, realText)
    decreases v, 2
  {
    match v
    case Dictionary(_) =>
      text, ok := EncodeDictionary(v, pretty, level, realText);
    case Array(_) =>
      text, ok := EncodeArray(v, pretty, level, realText);
    case String(s) =>
      text := EncodeString(s, "");
      EmptyAppend(QuotedText(s));
      ok := true;
    case Real(d) =>
      text := realText(d);
      ok := true;
    case Integer(i) =>
      text := Decimal.IntegerText(i as int);
      ok := true;
    case Boolean(b) =>
      text := if b then "YES" else "NO";
      ok := true;
    case Data(bs) =>
      text := EncodeData(bs, "", pretty);
      EmptyAppend("<");
      ok := true;
    case Date(_) =>
      text := "";
      ok := false;
  }

  /** The dictionary case: `{`, the entries in key order, the closing
      indentation and `}`. The loop stops at the first entry whose value
      holds a Date. */
  method EncodeDictionary(d: Value, pretty: bool, level: nat, realText: Double -> string)
    returns (text: string, ok: bool)
    requires d.Dictionary?
    ensures ok <==> !ContainsDate(d)
    ensures ok ==> text == TextOf(d, pretty, level, realText)
    decreases d, 1
  {
    var m := d.entries;
    var keys := SortedKeys(m);
    var body := "";
    var i := 0;
    while i < |keys|
      invariant 0 <= i <= |keys|
      invariant keys == SortedKeys(d.entries)
      invariant EntriesDateFree(d, i)
      invariant body == EntriesText(d, i, pretty, level, realText)
    {
      var key := keys[i];
      var entry;
      entry, ok := EncodeEntry(key, m[key], pretty, level, realText);
      if !ok {
        text := "";
        return;
      }
      EntriesStep(d, i, pretty, level, realText);
      body := body + entry;
      i := i + 1;
    }
    DictionaryText(d, pretty, level, realText);
    text := "{" + body + NewlineIndent(pretty, level) + "}";
    ok := true;
  }

  /** One dictionary entry: indentation, key, `=`, value and `;`. */
  method EncodeEntry(key: string, child: Value, pretty: bool, level: nat, realText: Double -> string)
    returns (text: string, ok: bool)
    ensures ok <==> !ContainsDate(child)
    ensures ok ==> text == EntryText(key, child, pretty, level, realText)
    decreases child, 3
  {
    var head := EncodeEntryHead(key, pretty, level);
    var childText;
    childText, ok := EncodeValue(child, pretty, level + 1, realText);
    if !ok {
      text := "";
      return;
    }
    text := head + childText + ";";
  }

  method EncodeEntryHead(key: string, pretty: bool, level: nat) returns (head: string)
    ensures head == EntryHead(key, pretty, level)
  {
    head := NewlineIndent(pretty, level + 1);
    head := EncodeString(key, head);
    if pretty {
      head := head + " = ";
    } else {
      head := head + "=";
    }
  }

  /** The array case: `(`, the elements, the closing indentation and `)`.
      The loop stops at the first element that holds a Date. */
  method EncodeArray(a: Value, pretty: bool, level: nat, realText: Double -> string)
    returns (text: string, ok: bool)
    requires a.Array?
    ensures ok <==> !ContainsDate(a)
    ensures ok ==> text == TextOf(a, pretty, level, realText)
    decreases a, 1
  {
    var elements := a.elements;
    var body := "";
    var count := 0;
    while count < |elements|
      invariant 0 <= count <= |elements|
      invariant ItemsDateFree(a, count)
      invariant body == ItemsText(a, count, pretty, level, realText)
    {
      var item;
      item, ok := EncodeItem(count == 0, elements[count], pretty, level, realText);
      if !ok {
        text := "";
        return;
      }
      ItemsStep(a, count, pretty, level, realText);
      body := body + item;
      count := count + 1;
    }
    text := "(" + body + NewlineIndent(pretty, level) + ")";
    ok := true;
  }

  /** One array element: the separating comma for all but the first, the
      indentation, and the element. */
  method EncodeItem(first: bool, child: Value, pretty: bool, level: nat, realText: Double -> string)
    returns (text: string, ok: bool)
    ensures ok <==> !ContainsDate(child)
    ensures ok ==> text == ItemText(first, child, pretty, level, realText)
    decreases child, 3
  {
    var head := if first then "" else ",";
    head := head + NewlineIndent(pretty, level + 1);
    var childText;
    childText, ok := EncodeValue(child, pretty, level + 1, realText);
    if !ok {
      text := "";
      return;
    }
    text := head + childText;
  }

  /** The text encoder's entry point: the preamble, then the value; no
      string at all when the value holds a Date. */
  method Encode(v: Value, pretty: bool, realText: Double -> string) returns (r: Result<string>)
    ensures r == Document(v, pretty, realText)
  {
    var result := Preamble;
    var text, ok := EncodeValue(v, pretty, 0, realText);
    if ok {
      result := result + text;
      r := Ok(result);
    } else {
      r := Err(UnsupportedError);
    }
  }
}
